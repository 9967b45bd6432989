/** The owner-trace monitor: one pass over an event trace with a handful of flags
    and epoch sets, collecting the invariants that the trace violates.

    Each violation has a statement of its own over the positions of the trace; the
    monitor reports it exactly when the statement holds. */
module OwnerTraces {
  import opened Lists

  /** An event record; a missing or non-integer epoch is None, a missing text is empty. */
  datatype Event = Event(
    actor: string,
    action: string,
    service: string,
    outcome: string,
    ownerEpoch: Option<int>,
    observedEpoch: Option<int>,
    followUpRequired: bool)

  datatype Violation =
    | OwnerOutcomeBeforeObserver
    | DurableTransitionHasRecoverableWake
    | StaleProjectionNeverPromotesReadiness
    | ReadyRequiresServiceableCanonicalLeader
    | ReadersDoNotRepairAuthority

  // ---------- the events the monitor reacts to ----------

  predicate SqlServiceable(e: Event) { e.actor == "owner" && e.action == "serviceable" && e.service == "sql" }

  predicate QueryServiceable(e: Event) {
    e.actor == "owner" && e.action == "serviceable" && e.service == "query_transport"
  }

  predicate OwnerOutcome(e: Event) { e.actor == "owner" && e.action == "owner_outcome" }

  predicate FreshProjection(e: Event) { e.actor == "owner" && e.action == "fresh_projection" }

  predicate DurableTransition(e: Event) {
    e.actor == "owner" && e.action == "durable_transition" && e.followUpRequired
  }

  predicate WakeEnqueued(e: Event) { e.actor == "wake" && e.action == "wake_enqueued" }

  predicate Projects(e: Event) { e.actor == "observer" && e.action == "projection" }

  predicate Promotes(e: Event) { e.actor == "observer" && e.action == "readiness_promoted" }

  predicate Repairs(e: Event) { e.actor == "observer" && e.action == "repair_authority" }

  // ---------- the statements over trace positions ----------

  ghost predicate Occurs(p: Event -> bool, before: seq<Event>) {
    exists j :: 0 <= j < |before| && p(before[j])
  }

  /** `j` is the position of the latest event of a kind. */
  ghost predicate LatestAt(p: Event -> bool, before: seq<Event>, j: int) {
    && 0 <= j < |before| && p(before[j])
    && forall k :: j < k < |before| ==> !p(before[k])
  }

  /** The latest owner outcome says ready. */
  ghost predicate OutcomeReady(before: seq<Event>) {
    exists j :: LatestAt(OwnerOutcome, before, j) && before[j].outcome == "ready"
  }

  /** The latest fresh projection observed the epoch of the latest owner outcome. */
  ghost predicate ProjectionCurrent(before: seq<Event>) {
    exists j, k :: LatestAt(OwnerOutcome, before, j) && LatestAt(FreshProjection, before, k)
                   && before[j].ownerEpoch.Some? && before[k].observedEpoch == before[j].ownerEpoch
  }

  /** Some durable transition has had no wake for its epoch. */
  ghost predicate WakeMissing(before: seq<Event>) {
    exists j :: 0 <= j < |before| && DurableTransition(before[j]) && before[j].ownerEpoch.Some?
                && forall k :: 0 <= k < |before| && WakeEnqueued(before[k]) ==>
                     before[k].ownerEpoch != before[j].ownerEpoch
  }

  /** Event `e`, after the events `before`, breaks an invariant. */
  ghost predicate Breaks(v: Violation, before: seq<Event>, e: Event) {
    match v
    case OwnerOutcomeBeforeObserver =>
      || (Projects(e) && !Occurs(OwnerOutcome, before))
      || (Promotes(e) && !OutcomeReady(before))
    case DurableTransitionHasRecoverableWake => Projects(e) && WakeMissing(before)
    case StaleProjectionNeverPromotesReadiness => Promotes(e) && !ProjectionCurrent(before)
    case ReadyRequiresServiceableCanonicalLeader =>
      Promotes(e) && !(Occurs(SqlServiceable, before) && Occurs(QueryServiceable, before))
    case ReadersDoNotRepairAuthority => Repairs(e)
  }

  ghost predicate Violated(v: Violation, events: seq<Event>) {
    exists i :: 0 <= i < |events| && Breaks(v, events[..i], events[i])
  }

  // ---------- the branches of the monitor ----------

  datatype Kind =
    | SqlUp | QueryUp | Outcome | Observation | Durable | Wake | Projected | Promoted | Repaired | Other

  /** The branch of the monitor that an event takes. */
  function KindOf(e: Event): Kind {
    if e.action == "serviceable" && e.service == "sql" && e.actor == "owner" then SqlUp
    else if e.action == "serviceable" && e.service == "query_transport" && e.actor == "owner" then QueryUp
    else if e.action == "owner_outcome" && e.actor == "owner" then Outcome
    else if e.action == "fresh_projection" && e.actor == "owner" then Observation
    else if e.action == "durable_transition" && e.followUpRequired && e.actor == "owner" then Durable
    else if e.action == "wake_enqueued" && e.actor == "wake" then Wake
    else if e.action == "projection" && e.actor == "observer" then Projected
    else if e.action == "readiness_promoted" && e.actor == "observer" then Promoted
    else if e.action == "repair_authority" && e.actor == "observer" then Repaired
    else Other
  }

  lemma {:induction false} KindMeaning(e: Event)
    ensures KindOf(e) == SqlUp <==> SqlServiceable(e)
    ensures KindOf(e) == QueryUp <==> QueryServiceable(e)
    ensures KindOf(e) == Outcome <==> OwnerOutcome(e)
    ensures KindOf(e) == Observation <==> FreshProjection(e)
    ensures KindOf(e) == Durable <==> DurableTransition(e)
    ensures KindOf(e) == Wake <==> WakeEnqueued(e)
    ensures KindOf(e) == Projected <==> Projects(e)
    ensures KindOf(e) == Promoted <==> Promotes(e)
    ensures KindOf(e) == Repaired <==> Repairs(e)
  {
  }

  // ---------- what the monitor remembers ----------

  datatype Memory = Memory(
    ownerOutcomeSeen: bool,
    latestOutcome: Option<string>,
    ownerEpoch: Option<int>,
    observedEpoch: Option<int>,
    sqlServiceable: bool,
    queryServiceable: bool,
    pendingWakeEpochs: set<int>,
    wakeEpochs: set<int>)

  const READY := "ready"

  /** The outcome an event carries; an empty text is none. */
  function OutcomeText(e: Event): Option<string> { if e.outcome == "" then None else Some(e.outcome) }

  function WithEpoch(epochs: set<int>, epoch: Option<int>): set<int> {
    if epoch.Some? then epochs + {epoch.value} else epochs
  }

  function Last(p: Event -> bool, events: seq<Event>): Option<Event> {
    if events == [] then None
    else if p(events[|events| - 1]) then Some(events[|events| - 1])
    else Last(p, events[..|events| - 1])
  }

  function Epochs(p: Event -> bool, events: seq<Event>): set<int> {
    if events == [] then {}
    else
      var before, e := Epochs(p, events[..|events| - 1]), events[|events| - 1];
      if p(e) then WithEpoch(before, e.ownerEpoch) else before
  }

  /** The variables of the loop after a trace, but for the violations. */
  function Remembered(events: seq<Event>): Memory {
    var outcome, seen := Last(OwnerOutcome, events), Last(FreshProjection, events);
    Memory(outcome.Some?,
           if outcome.None? then None else OutcomeText(outcome.value),
           if outcome.None? then None else outcome.value.ownerEpoch,
           if seen.None? then None else seen.value.observedEpoch,
           Last(SqlServiceable, events).Some?,
           Last(QueryServiceable, events).Some?,
           Epochs(DurableTransition, events),
           Epochs(WakeEnqueued, events))
  }

  /** The check of the monitor on one event. */
  predicate Flags(v: Violation, m: Memory, kind: Kind) {
    match v
    case OwnerOutcomeBeforeObserver =>
      || (kind == Projected && !m.ownerOutcomeSeen)
      || (kind == Promoted && m.latestOutcome != Some(READY))
    case DurableTransitionHasRecoverableWake =>
      kind == Projected && exists epoch :: epoch in m.pendingWakeEpochs && epoch !in m.wakeEpochs
    case StaleProjectionNeverPromotesReadiness =>
      kind == Promoted && (m.ownerEpoch.None? || m.observedEpoch != m.ownerEpoch)
    case ReadyRequiresServiceableCanonicalLeader =>
      kind == Promoted && (!m.sqlServiceable || !m.queryServiceable)
    case ReadersDoNotRepairAuthority => kind == Repaired
  }

  /** Some event of the trace is flagged. */
  predicate Flagged(v: Violation, events: seq<Event>) {
    events != [] &&
    (Flagged(v, events[..|events| - 1])
     || Flags(v, Remembered(events[..|events| - 1]), KindOf(events[|events| - 1])))
  }

  // ---------- the memory says what has occurred ----------

  lemma {:induction false} LastOccurs(p: Event -> bool, events: seq<Event>)
    ensures Last(p, events).Some? <==> Occurs(p, events)
  {
    if events != [] {
      var init := events[..|events| - 1];
      LastOccurs(p, init);
      assert Occurs(p, events) <==> Occurs(p, init) || p(events[|events| - 1]);
    }
  }

  lemma {:induction false} LastIsLatest(p: Event -> bool, events: seq<Event>)
    requires Last(p, events).Some?
    ensures exists j :: LatestAt(p, events, j) && events[j] == Last(p, events).value
  {
    var init, n := events[..|events| - 1], |events| - 1;
    if p(events[n]) {
      assert LatestAt(p, events, n);
    } else {
      LastIsLatest(p, init);
      var j :| LatestAt(p, init, j) && init[j] == Last(p, init).value;
      assert LatestAt(p, events, j) && events[j] == Last(p, events).value;
    }
  }

  lemma {:induction false} LastMeaning(p: Event -> bool, events: seq<Event>)
    ensures Last(p, events).Some? <==> Occurs(p, events)
    ensures Last(p, events).Some? ==> exists j :: LatestAt(p, events, j) && events[j] == Last(p, events).value
  {
    LastOccurs(p, events);
    if Last(p, events).Some? {
      LastIsLatest(p, events);
    }
  }

  lemma {:induction false} EpochsMeaning(p: Event -> bool, events: seq<Event>, epoch: int)
    ensures epoch in Epochs(p, events)
       <==> exists j :: 0 <= j < |events| && p(events[j]) && events[j].ownerEpoch == Some(epoch)
  {
    if events != [] {
      var init, n := events[..|events| - 1], |events| - 1;
      EpochsMeaning(p, init, epoch);
      assert forall j :: 0 <= j < n ==> init[j] == events[j];
      if epoch in Epochs(p, init) {
        var j :| 0 <= j < |init| && p(init[j]) && init[j].ownerEpoch == Some(epoch);
        assert p(events[j]);
      }
    }
  }

  lemma {:induction false} LatestIsLast(p: Event -> bool, events: seq<Event>, j: int)
    requires LatestAt(p, events, j)
    ensures Last(p, events) == Some(events[j])
  {
    LastMeaning(p, events);
    var k :| LatestAt(p, events, k) && events[k] == Last(p, events).value;
  }

  lemma {:induction false} OutcomeReadyMeaning(before: seq<Event>)
    ensures Remembered(before).latestOutcome == Some(READY) <==> OutcomeReady(before)
  {
    LastMeaning(OwnerOutcome, before);
    if j :| LatestAt(OwnerOutcome, before, j) && OutcomeText(before[j]) == Some(READY) {
      LatestIsLast(OwnerOutcome, before, j);
    }
  }

  lemma {:induction false} ProjectionCurrentMeaning(before: seq<Event>)
    ensures var m := Remembered(before);
            m.ownerEpoch.Some? && m.observedEpoch == m.ownerEpoch <==> ProjectionCurrent(before)
  {
    LastMeaning(OwnerOutcome, before);
    LastMeaning(FreshProjection, before);
    if j, k :| LatestAt(OwnerOutcome, before, j) && LatestAt(FreshProjection, before, k)
               && before[j].ownerEpoch.Some? && before[k].observedEpoch == before[j].ownerEpoch {
      LatestIsLast(OwnerOutcome, before, j);
      LatestIsLast(FreshProjection, before, k);
    }
  }

  lemma {:induction false} WakeMissingMeaning(before: seq<Event>)
    ensures var m := Remembered(before);
            (exists epoch :: epoch in m.pendingWakeEpochs && epoch !in m.wakeEpochs) <==> WakeMissing(before)
  {
    var m := Remembered(before);
    if epoch :| epoch in m.pendingWakeEpochs && epoch !in m.wakeEpochs {
      EpochsMeaning(DurableTransition, before, epoch);
      EpochsMeaning(WakeEnqueued, before, epoch);
    }
    if WakeMissing(before) {
      var j :| 0 <= j < |before| && DurableTransition(before[j]) && before[j].ownerEpoch.Some?
               && forall k :: 0 <= k < |before| && WakeEnqueued(before[k]) ==>
                    before[k].ownerEpoch != before[j].ownerEpoch;
      EpochsMeaning(DurableTransition, before, before[j].ownerEpoch.value);
      EpochsMeaning(WakeEnqueued, before, before[j].ownerEpoch.value);
    }
  }

  /** The monitor flags an event exactly when it breaks the invariant. */
  lemma {:induction false} FlagsMeaning(v: Violation, before: seq<Event>, e: Event)
    ensures Flags(v, Remembered(before), KindOf(e)) <==> Breaks(v, before, e)
  {
    hide KindOf, Projects, Promotes, Repairs, SqlServiceable, QueryServiceable, OwnerOutcome, FreshProjection;
    hide DurableTransition, WakeEnqueued;
    KindMeaning(e);
    match v {
      case OwnerOutcomeBeforeObserver =>
        OutcomeReadyMeaning(before);
        LastMeaning(OwnerOutcome, before);
      case DurableTransitionHasRecoverableWake => WakeMissingMeaning(before);
      case StaleProjectionNeverPromotesReadiness => ProjectionCurrentMeaning(before);
      case ReadyRequiresServiceableCanonicalLeader =>
        LastMeaning(SqlServiceable, before);
        LastMeaning(QueryServiceable, before);
      case ReadersDoNotRepairAuthority =>
    }
  }

  lemma {:induction false} ViolatedGrows(v: Violation, events: seq<Event>)
    requires events != []
    ensures Violated(v, events)
       <==> Violated(v, events[..|events| - 1]) || Breaks(v, events[..|events| - 1], events[|events| - 1])
  {
    hide Breaks;
    var init, n := events[..|events| - 1], |events| - 1;
    assert forall i :: 0 <= i < n ==> init[..i] == events[..i] && init[i] == events[i];
    if i :| 0 <= i < |events| && Breaks(v, events[..i], events[i]) {
      assert i < n ==> Breaks(v, init[..i], init[i]);
    }
    if i :| 0 <= i < |init| && Breaks(v, init[..i], init[i]) {
      assert Breaks(v, events[..i], events[i]);
    }
  }

  lemma {:induction false} FlaggedMeaning(v: Violation, events: seq<Event>)
    ensures Flagged(v, events) <==> Violated(v, events)
  {
    if events == [] {
    } else {
      hide Violated, Breaks, Remembered, KindOf;
      var init := events[..|events| - 1];
      FlaggedMeaning(v, init);
      FlagsMeaning(v, init, events[|events| - 1]);
      ViolatedGrows(v, events);
    }
  }

  lemma {:induction false} NothingRemembered()
    ensures Remembered([]) == Memory(false, None, None, None, false, false, {}, {})
  {
  }

  /** What one event does to the memory. */
  lemma {:induction false} MemoryStep(before: seq<Event>, e: Event)
    ensures Last(OwnerOutcome, before + [e]) == if KindOf(e) == Outcome then Some(e) else Last(OwnerOutcome, before)
    ensures Last(FreshProjection, before + [e])
         == if KindOf(e) == Observation then Some(e) else Last(FreshProjection, before)
    ensures Last(SqlServiceable, before + [e]).Some? <==> KindOf(e) == SqlUp || Last(SqlServiceable, before).Some?
    ensures Last(QueryServiceable, before + [e]).Some? <==> KindOf(e) == QueryUp || Last(QueryServiceable, before).Some?
    ensures Epochs(DurableTransition, before + [e])
         == if KindOf(e) == Durable then WithEpoch(Epochs(DurableTransition, before), e.ownerEpoch)
            else Epochs(DurableTransition, before)
    ensures Epochs(WakeEnqueued, before + [e])
         == if KindOf(e) == Wake then WithEpoch(Epochs(WakeEnqueued, before), e.ownerEpoch)
            else Epochs(WakeEnqueued, before)
    ensures forall v :: Flagged(v, before + [e]) <==> Flagged(v, before) || Flags(v, Remembered(before), KindOf(e))
  {
    hide KindOf, SqlServiceable, QueryServiceable, OwnerOutcome, FreshProjection, DurableTransition, WakeEnqueued;
    KindMeaning(e);
    assert (before + [e])[..|before|] == before;
  }

  /** The branches that look at what an observer did. */
  method Judge(m: Memory, kind: Kind, before: set<Violation>) returns (violations: set<Violation>)
    ensures forall v :: v in violations <==> v in before || Flags(v, m, kind)
  {
    violations := before;
    if kind == Projected {
      if !m.ownerOutcomeSeen {
        violations := violations + {OwnerOutcomeBeforeObserver};
      }
      if exists epoch :: epoch in m.pendingWakeEpochs && epoch !in m.wakeEpochs {
        violations := violations + {DurableTransitionHasRecoverableWake};
      }
    } else if kind == Promoted {
      if m.latestOutcome != Some(READY) {
        violations := violations + {OwnerOutcomeBeforeObserver};
      }
      if m.ownerEpoch.None? || m.observedEpoch != m.ownerEpoch {
        violations := violations + {StaleProjectionNeverPromotesReadiness};
      }
      if !m.sqlServiceable || !m.queryServiceable {
        violations := violations + {ReadyRequiresServiceableCanonicalLeader};
      }
    } else if kind == Repaired {
      violations := violations + {ReadersDoNotRepairAuthority};
    }
  }

  /** The monitor itself. */
  method CollectTraceViolations(events: seq<Event>) returns (violations: set<Violation>)
    ensures forall v :: v in violations <==> Violated(v, events)
  {
    hide KindOf, Violated, SqlServiceable, QueryServiceable, OwnerOutcome, FreshProjection, DurableTransition;
    hide WakeEnqueued, Epochs, Last;
    violations := {};
    var m := Memory(false, None, None, None, false, false, {}, {});
    NothingRemembered();
    for i := 0 to |events|
      invariant m == Remembered(events[..i])
      invariant forall v :: v in violations <==> Flagged(v, events[..i])
    {
      var e := events[i];
      assert events[..i + 1] == events[..i] + [e];
      MemoryStep(events[..i], e);
      match KindOf(e) {
        case SqlUp => m := m.(sqlServiceable := true);
        case QueryUp => m := m.(queryServiceable := true);
        case Outcome =>
          m := m.(ownerOutcomeSeen := true, latestOutcome := OutcomeText(e), ownerEpoch := e.ownerEpoch);
        case Observation => m := m.(observedEpoch := e.observedEpoch);
        case Durable =>
          if e.ownerEpoch.Some? {
            m := m.(pendingWakeEpochs := m.pendingWakeEpochs + {e.ownerEpoch.value});
          }
        case Wake =>
          if e.ownerEpoch.Some? {
            m := m.(wakeEpochs := m.wakeEpochs + {e.ownerEpoch.value});
          }
        case Projected | Promoted | Repaired => violations := Judge(m, KindOf(e), violations);
        case Other =>
      }
    }
    assert events[..|events|] == events;
    forall v ensures v in violations <==> Violated(v, events) {
      FlaggedMeaning(v, events);
    }
  }

  // ---------- longer traces ----------

  /** A violation of a prefix is a violation of the whole trace. */
  lemma {:induction false} PrefixViolations(v: Violation, prefix: seq<Event>, rest: seq<Event>)
    requires Violated(v, prefix)
    ensures Violated(v, prefix + rest)
  {
    hide Breaks;
    var i :| 0 <= i < |prefix| && Breaks(v, prefix[..i], prefix[i]);
    assert (prefix + rest)[..i] == prefix[..i] && (prefix + rest)[i] == prefix[i];
    assert Breaks(v, (prefix + rest)[..i], (prefix + rest)[i]);
  }

  lemma {:induction false} LastStep(p: Event -> bool, s: seq<Event>, y: Event)
    ensures Last(p, s + [y]) == if p(y) then Some(y) else Last(p, s)
    ensures Epochs(p, s + [y]) == if p(y) then WithEpoch(Epochs(p, s), y.ownerEpoch) else Epochs(p, s)
  {
    assert (s + [y])[..|s|] == s;
  }

  /** An event in the middle matters to `Last` and `Epochs` only if it is of the kind. */
  lemma {:induction false} InsertEvent(p: Event -> bool, a: seq<Event>, x: Event, b: seq<Event>)
    ensures !p(x) ==> Last(p, a + [x] + b) == Last(p, a + b) && Epochs(p, a + [x] + b) == Epochs(p, a + b)
    ensures Last(p, a + b).Some? ==> Last(p, a + [x] + b).Some?
    ensures Epochs(p, a + b) <= Epochs(p, a + [x] + b)
  {
    hide Last, Epochs;
    if b == [] {
      assert a + [x] + b == a + [x] && a + b == a;
      LastStep(p, a, x);
    } else {
      var init, y := b[..|b| - 1], b[|b| - 1];
      InsertEvent(p, a, x, init);
      assert a + [x] + b == (a + [x] + init) + [y];
      assert a + b == (a + init) + [y];
      LastStep(p, a + [x] + init, y);
      LastStep(p, a + init, y);
    }
  }

  /** An owner's report of any service, or an enqueued wake. */
  predicate Evidence(x: Event) { (x.action == "serviceable" && x.actor == "owner") || WakeEnqueued(x) }

  lemma {:induction false} EvidenceKinds(x: Event)
    requires Evidence(x)
    ensures KindOf(x) in {SqlUp, QueryUp, Wake, Other}
  {
  }

  lemma {:induction false} EvidenceClears(v: Violation, a: seq<Event>, x: Event, b: seq<Event>, kind: Kind)
    requires Evidence(x) && Flags(v, Remembered(a + [x] + b), kind)
    ensures Flags(v, Remembered(a + b), kind)
  {
    EvidenceKinds(x);
    hide KindOf;
    InsertEvent(OwnerOutcome, a, x, b);
    InsertEvent(FreshProjection, a, x, b);
    InsertEvent(SqlServiceable, a, x, b);
    InsertEvent(QueryServiceable, a, x, b);
    InsertEvent(DurableTransition, a, x, b);
    InsertEvent(WakeEnqueued, a, x, b);
  }

  lemma {:induction false} EvidenceAtEnd(v: Violation, a: seq<Event>, x: Event)
    requires Evidence(x) && Flagged(v, a + [x])
    ensures Flagged(v, a)
  {
    EvidenceKinds(x);
    hide KindOf, Remembered;
    assert (a + [x])[..|a|] == a;
  }

  lemma {:induction false} EvidenceFlagsLess(v: Violation, a: seq<Event>, x: Event, b: seq<Event>)
    requires Evidence(x) && Flagged(v, a + [x] + b)
    ensures Flagged(v, a + b)
  {
    hide KindOf, Remembered, Evidence, Flags;
    if b == [] {
      assert a + [x] + b == a + [x] && a + b == a;
      EvidenceAtEnd(v, a, x);
    } else {
      var init, e := b[..|b| - 1], b[|b| - 1];
      assert (a + [x] + b)[..|a + [x] + b| - 1] == a + [x] + init;
      assert (a + b)[..|a + b| - 1] == a + init;
      if Flagged(v, a + [x] + init) {
        EvidenceFlagsLess(v, a, x, init);
      } else {
        EvidenceClears(v, a, x, init, KindOf(e));
      }
    }
  }

  /** A further serviceable or wake event, anywhere in a trace, adds no violation. */
  lemma {:induction false} ExtraEvidenceIsHarmless(v: Violation, a: seq<Event>, x: Event, b: seq<Event>)
    requires Evidence(x) && Violated(v, a + [x] + b)
    ensures Violated(v, a + b)
  {
    hide Violated;
    FlaggedMeaning(v, a + [x] + b);
    EvidenceFlagsLess(v, a, x, b);
    FlaggedMeaning(v, a + b);
  }

  // ---------- trace suites ----------

  /** The identifier under which a violation is reported. */
  function IdOf(v: Violation): string {
    match v
    case OwnerOutcomeBeforeObserver => "owner-outcome-before-observer"
    case DurableTransitionHasRecoverableWake => "durable-transition-has-recoverable-wake"
    case StaleProjectionNeverPromotesReadiness => "stale-projection-never-promotes-readiness"
    case ReadyRequiresServiceableCanonicalLeader => "ready-requires-serviceable-canonical-leader"
    case ReadersDoNotRepairAuthority => "readers-do-not-repair-authority"
  }

  datatype ForbiddenTrace = ForbiddenTrace(events: seq<Event>, expected: seq<string>)

  /** A suite with the ids of the invariants it declares. */
  datatype Suite = Suite(invariants: seq<string>, valid: seq<seq<Event>>, forbidden: seq<ForbiddenTrace>)

  datatype SuiteError =
    | NoInvariants | RepeatedInvariants | NoValidTraces | NoForbiddenTraces
    | NoEvents(index: nat) | ValidViolates(index: nat)
    | NothingExpected(index: nat) | UnknownInvariant(index: nat, id: string) | NotViolated(index: nat, id: string)

  ghost predicate Clean(events: seq<Event>) { forall v :: !Violated(v, events) }

  ghost predicate ViolatedId(id: string, events: seq<Event>) {
    exists v :: IdOf(v) == id && Violated(v, events)
  }

  /** Every expected id is declared, and its invariant is violated. */
  ghost predicate AsExpected(t: ForbiddenTrace, declared: seq<string>) {
    && t.events != [] && t.expected != []
    && forall id :: id in t.expected ==> id in declared && ViolatedId(id, t.events)
  }

  ghost predicate AcceptedSuite(suite: Suite) {
    && suite.invariants != [] && Distinct(suite.invariants) && suite.valid != [] && suite.forbidden != []
    && (forall i :: 0 <= i < |suite.valid| ==> suite.valid[i] != [] && Clean(suite.valid[i]))
    && (forall i :: 0 <= i < |suite.forbidden| ==> AsExpected(suite.forbidden[i], suite.invariants))
  }

  method ValidateInvariants(suite: Suite) returns (errors: seq<SuiteError>)
    ensures errors == [] <==>
            suite.invariants != [] && Distinct(suite.invariants) && suite.valid != [] && suite.forbidden != []
  {
    UniqueMeaning(suite.invariants);
    errors := if |suite.invariants| == 0 then [NoInvariants] else [];
    if !Unique(suite.invariants) {
      errors := errors + [RepeatedInvariants];
    }
    if |suite.valid| == 0 {
      errors := errors + [NoValidTraces];
    }
    if |suite.forbidden| == 0 {
      errors := errors + [NoForbiddenTraces];
    }
  }

  method ValidateForbidden(t: ForbiddenTrace, declared: seq<string>, index: nat) returns (errors: seq<SuiteError>)
    ensures errors == [] <==> AsExpected(t, declared)
  {
    hide Violated, IdOf;
    errors := if |t.events| == 0 then [NoEvents(index)] else [];
    if |t.expected| == 0 {
      errors := errors + [NothingExpected(index)];
    }
    for i := 0 to |t.expected|
      invariant errors == [] <==>
                t.events != [] && t.expected != [] && forall id :: id in t.expected[..i] ==> id in declared
    {
      assert t.expected[..i + 1] == t.expected[..i] + [t.expected[i]];
      if t.expected[i] !in declared {
        errors := errors + [UnknownInvariant(index, t.expected[i])];
      }
    }
    assert t.expected[..|t.expected|] == t.expected;
    var violations := CollectTraceViolations(t.events);
    var reported := set v | v in violations :: IdOf(v);
    assert forall id :: id in reported <==> ViolatedId(id, t.events);
    ghost var known := errors == [];
    for i := 0 to |t.expected|
      invariant errors == [] <==> known && forall id :: id in t.expected[..i] ==> id in reported
    {
      assert t.expected[..i + 1] == t.expected[..i] + [t.expected[i]];
      if t.expected[i] !in reported {
        errors := errors + [NotViolated(index, t.expected[i])];
      }
    }
  }

  method ValidateValid(events: seq<Event>, index: nat) returns (errors: seq<SuiteError>)
    ensures errors == [] <==> events != [] && Clean(events)
  {
    hide Violated;
    errors := if |events| == 0 then [NoEvents(index)] else [];
    var violations := CollectTraceViolations(events);
    assert violations == {} <==> Clean(events);
    if violations != {} {
      errors := errors + [ValidViolates(index)];
    }
  }

  /** The check of a suite: valid traces violate nothing, forbidden traces violate
      what they declare, and they declare invariants of the suite only. */
  method ValidateTraceSuite(suite: Suite) returns (errors: seq<SuiteError>)
    ensures errors == [] <==> AcceptedSuite(suite)
  {
    hide Clean, AsExpected;
    errors := ValidateInvariants(suite);
    ghost var shaped := errors == [];
    for i := 0 to |suite.valid|
      invariant errors == [] <==> shaped && forall k :: 0 <= k < i ==> suite.valid[k] != [] && Clean(suite.valid[k])
    {
      var more := ValidateValid(suite.valid[i], i);
      errors := errors + more;
    }
    ghost var clean := errors == [];
    for i := 0 to |suite.forbidden|
      invariant errors == [] <==> clean && forall k :: 0 <= k < i ==> AsExpected(suite.forbidden[k], suite.invariants)
    {
      var more := ValidateForbidden(suite.forbidden[i], suite.invariants, i);
      errors := errors + more;
    }
  }

  /** In an accepted suite no forbidden trace is the beginning of a valid one. */
  lemma {:induction false} ForbiddenIsNoPrefix(suite: Suite, i: nat, j: nat, rest: seq<Event>)
    requires AcceptedSuite(suite) && i < |suite.forbidden| && j < |suite.valid|
    ensures suite.forbidden[i].events + rest != suite.valid[j]
  {
    hide Violated;
    var t := suite.forbidden[i];
    assert AsExpected(t, suite.invariants) && t.expected[0] in t.expected;
    var v :| IdOf(v) == t.expected[0] && Violated(v, t.events);
    PrefixViolations(v, t.events, rest);
    assert Clean(suite.valid[j]);
  }
}
