/** The statechart checker: a reachability fixpoint and conditions on the graph.

    A run is any sequence of transitions that starts in the initial state.  The
    theorems turn the yes or no of the check into statements about every run of an
    accepted chart. */
module Statecharts {
  import opened Lists

  datatype Transition = Transition(from: string, event: string, to: string)

  datatype Chart = Chart(
    states: seq<string>,
    initial: string,
    terminalStates: seq<string>,
    transitions: seq<Transition>,
    forbidden: seq<Transition>)

  // ---------- runs ----------

  function End(chart: Chart, run: seq<Transition>): string {
    if run == [] then chart.initial else run[|run| - 1].to
  }

  /** Declared transitions that follow one another from the initial state. */
  ghost predicate IsRun(chart: Chart, run: seq<Transition>) {
    run != [] ==>
      && IsRun(chart, run[..|run| - 1])
      && run[|run| - 1] in chart.transitions
      && run[|run| - 1].from == End(chart, run[..|run| - 1])
  }

  ghost predicate Reachable(chart: Chart, state: string) {
    exists run :: IsRun(chart, run) && End(chart, run) == state
  }

  lemma {:induction false} RunExtends(chart: Chart, run: seq<Transition>, t: Transition)
    requires IsRun(chart, run) && t in chart.transitions && t.from == End(chart, run)
    ensures IsRun(chart, run + [t]) && End(chart, run + [t]) == t.to
  {
    assert (run + [t])[..|run|] == run;
  }

  // ---------- the reachability fixpoint ----------

  ghost predicate ClosedUnder(transitions: seq<Transition>, seen: set<string>) {
    forall i :: 0 <= i < |transitions| && transitions[i].from in seen ==> transitions[i].to in seen
  }

  lemma {:induction false} RunsStayInClosed(chart: Chart, seen: set<string>, run: seq<Transition>)
    requires chart.initial in seen && ClosedUnder(chart.transitions, seen) && IsRun(chart, run)
    ensures End(chart, run) in seen
  {
    if run != [] {
      RunsStayInClosed(chart, seen, run[..|run| - 1]);
    }
  }

  function Targets(transitions: seq<Transition>): set<string> {
    set i | 0 <= i < |transitions| :: transitions[i].to
  }

  lemma {:induction false} ReachableStart(chart: Chart)
    ensures Reachable(chart, chart.initial)
  {
    assert IsRun(chart, []) && End(chart, []) == chart.initial;
  }

  lemma {:induction false} ReachableStep(chart: Chart, t: Transition)
    requires Reachable(chart, t.from) && t in chart.transitions
    ensures Reachable(chart, t.to)
  {
    var run :| IsRun(chart, run) && End(chart, run) == t.from;
    RunExtends(chart, run, t);
  }

  lemma {:induction false} ReachableInClosed(chart: Chart, seen: set<string>, state: string)
    requires chart.initial in seen && ClosedUnder(chart.transitions, seen) && Reachable(chart, state)
    ensures state in seen
  {
    var run :| IsRun(chart, run) && End(chart, run) == state;
    RunsStayInClosed(chart, seen, run);
  }

  /** One pass over the transitions. */
  method Pass(chart: Chart, start: set<string>, ghost universe: set<string>) returns (seen: set<string>, changed: bool)
    requires start <= universe && Targets(chart.transitions) <= universe
    requires forall s :: s in start ==> Reachable(chart, s)
    ensures start <= seen <= universe
    ensures forall s :: s in seen ==> Reachable(chart, s)
    ensures if changed then start < seen else seen == start && ClosedUnder(chart.transitions, seen)
  {
    hide Reachable;
    seen, changed := start, false;
    for i := 0 to |chart.transitions|
      invariant start <= seen <= universe
      invariant forall s :: s in seen ==> Reachable(chart, s)
      invariant if changed then start < seen else seen == start && ClosedUnder(chart.transitions[..i], seen)
    {
      var t := chart.transitions[i];
      if t.from in seen && t.to !in seen {
        ReachableStep(chart, t);
        assert t.to in Targets(chart.transitions);
        seen := seen + {t.to};
        changed := true;
      }
    }
    assert chart.transitions[..|chart.transitions|] == chart.transitions;
  }

  /** The loop terminates and finds exactly the states that some run reaches. */
  method ReachableStates(chart: Chart) returns (seen: set<string>)
    ensures forall s :: s in seen <==> Reachable(chart, s)
  {
    hide Reachable;
    seen := {chart.initial};
    ghost var universe := {chart.initial} + Targets(chart.transitions);
    ReachableStart(chart);
    var changed := true;
    while changed
      invariant chart.initial in seen && seen <= universe
      invariant forall s :: s in seen ==> Reachable(chart, s)
      invariant !changed ==> ClosedUnder(chart.transitions, seen)
      decreases universe - seen, changed
    {
      seen, changed := Pass(chart, seen, universe);
    }
    forall s | Reachable(chart, s) ensures s in seen {
      ReachableInClosed(chart, seen, s);
    }
  }

  // ---------- the from/event key ----------

  /** The key by which the check looks for repeated pairs. */
  function Key(t: Transition): string { t.from + ":" + t.event }

  /** The pairs differ, but a colon in one state name makes up for it. */
  ghost predicate ColonShift(a: Transition, b: Transition) {
    exists x: string :: b.from == a.from + ":" + x && a.event == x + ":" + b.event
  }

  lemma {:induction false} KeyCases(a: Transition, b: Transition)
    requires |a.from| <= |b.from| && Key(a) == Key(b)
    ensures (a.from == b.from && a.event == b.event) || ColonShift(a, b)
  {
    var key, n, k := Key(a), |a.from|, |b.from|;
    assert key[..n] == a.from && key[n] == ':' && key[n + 1..] == a.event;
    assert key[..k] == b.from && key[k] == ':' && key[k + 1..] == b.event;
    if n < k {
      var x := key[n + 1..k];
      assert b.from == key[..n] + [key[n]] + x;
      assert a.event == x + [key[k]] + key[k + 1..];
    }
  }

  /** Two keys are equal exactly when the pairs are, or are shifted past a colon. */
  lemma {:induction false} KeyMeaning(a: Transition, b: Transition)
    ensures Key(a) == Key(b) <==>
            (a.from == b.from && a.event == b.event) || ColonShift(a, b) || ColonShift(b, a)
  {
    if Key(a) == Key(b) {
      if |a.from| <= |b.from| {
        KeyCases(a, b);
      } else {
        KeyCases(b, a);
      }
    }
    if ColonShift(a, b) {
      ShiftedKeys(a, b);
    }
    if ColonShift(b, a) {
      ShiftedKeys(b, a);
    }
  }

  lemma {:induction false} ShiftedKeys(a: Transition, b: Transition)
    requires ColonShift(a, b)
    ensures Key(a) == Key(b)
  {
    var x: string :| b.from == a.from + ":" + x && a.event == x + ":" + b.event;
    assert a.from + ":" + (x + ":" + b.event) == a.from + ":" + x + ":" + b.event;
  }

  lemma {:induction false} ShiftHasColon(a: Transition, b: Transition)
    requires ColonShift(a, b)
    ensures ':' in b.from
  {
    assert b.from[|a.from|] == ':';
  }

  /** Without colons in state names the key tells pairs apart. */
  lemma {:induction false} KeyWithoutColons(a: Transition, b: Transition)
    requires ':' !in a.from && ':' !in b.from
    ensures Key(a) == Key(b) <==> a.from == b.from && a.event == b.event
  {
    KeyMeaning(a, b);
    if ColonShift(a, b) {
      ShiftHasColon(a, b);
    }
    if ColonShift(b, a) {
      ShiftHasColon(b, a);
    }
  }

  // ---------- what the check demands ----------

  ghost predicate KeysDistinct(transitions: seq<Transition>) {
    forall i, j :: 0 <= i < j < |transitions| ==> Key(transitions[i]) != Key(transitions[j])
  }

  ghost predicate GoodStates(chart: Chart) { chart.states != [] && Distinct(chart.states) }

  ghost predicate GoodTransitions(chart: Chart) {
    && chart.transitions != [] && KeysDistinct(chart.transitions)
    && forall i :: 0 <= i < |chart.transitions| ==>
         chart.transitions[i].from in chart.states && chart.transitions[i].to in chart.states
  }

  ghost predicate HasOutgoing(chart: Chart, state: string) {
    exists i :: 0 <= i < |chart.transitions| && chart.transitions[i].from == state
  }

  ghost predicate GoodGraph(chart: Chart) {
    && chart.initial in chart.states && chart.terminalStates != []
    && (forall s :: s in chart.terminalStates ==> s in chart.states && !HasOutgoing(chart, s))
    && (forall s :: s in chart.states ==> Reachable(chart, s))
    && (forall s :: s in chart.states && s !in chart.terminalStates ==> HasOutgoing(chart, s))
  }

  ghost predicate GoodForbidden(chart: Chart) {
    forall f :: f in chart.forbidden ==> f.from in chart.states && f.to in chart.states && f !in chart.transitions
  }

  ghost predicate Accepted(chart: Chart) {
    GoodStates(chart) && GoodTransitions(chart) && GoodGraph(chart) && GoodForbidden(chart)
  }

  /** No two transitions leave the same state on the same event. */
  ghost predicate PairsDistinct(transitions: seq<Transition>) {
    forall i, j :: 0 <= i < j < |transitions| ==>
      transitions[i].from != transitions[j].from || transitions[i].event != transitions[j].event
  }

  /** No state name takes in, behind a colon, the beginning of another transition's event. */
  ghost predicate NoShifts(transitions: seq<Transition>) {
    forall i, j :: 0 <= i < |transitions| && 0 <= j < |transitions| && i != j ==>
      !ColonShift(transitions[i], transitions[j])
  }

  /** The keys are distinct exactly when the pairs are and no colon makes two of them alike. */
  lemma {:induction false} KeysDistinctExactly(transitions: seq<Transition>)
    ensures KeysDistinct(transitions) <==> PairsDistinct(transitions) && NoShifts(transitions)
  {
    hide Key, ColonShift;
    forall i, j | 0 <= i < |transitions| && 0 <= j < |transitions| && i != j
      ensures Key(transitions[i]) == Key(transitions[j]) <==>
              || (transitions[i].from == transitions[j].from && transitions[i].event == transitions[j].event)
              || ColonShift(transitions[i], transitions[j]) || ColonShift(transitions[j], transitions[i])
    {
      KeyMeaning(transitions[i], transitions[j]);
    }
    if KeysDistinct(transitions) {
      forall i, j | 0 <= i < |transitions| && 0 <= j < |transitions| && i != j
        ensures !ColonShift(transitions[i], transitions[j])
      {
        assert Key(transitions[i]) != Key(transitions[j]) by {
          if i < j {
          } else {
            assert Key(transitions[j]) != Key(transitions[i]);
          }
        }
      }
    }
  }

  /** From `s` over `s:x` to `end`, on the events `x:e` and `e`. */
  function ColonChart(s: string, x: string, e: string, end: string): Chart {
    var middle := s + ":" + x;
    Chart([s, middle, end], s, [end], [Transition(s, x + ":" + e, middle), Transition(middle, e, end)], [])
  }

  /** Such a chart repeats no pair and meets every other demand, yet it is refused,
      because two of its keys read alike. */
  lemma {:induction false} ColonCollision(s: string, x: string, e: string, end: string)
    requires s != "" && e != "" && end != "" && end != s && end != s + ":" + x
    ensures var chart := ColonChart(s, x, e, end);
            && GoodStates(chart) && GoodGraph(chart) && GoodForbidden(chart) && PairsDistinct(chart.transitions)
            && !Accepted(chart)
  {
    var chart := ColonChart(s, x, e, end);
    var first, second := chart.transitions[0], chart.transitions[1];
    assert |second.from| > |s|;
    assert ColonShift(first, second);
    ShiftedKeys(first, second);
    ReachableStart(chart);
    ReachableStep(chart, first);
    ReachableStep(chart, second);
    hide Reachable, Key, ColonShift;
    assert HasOutgoing(chart, s) && HasOutgoing(chart, second.from) && !HasOutgoing(chart, end);
  }

  datatype ChartError =
    | NoStates | RepeatedStates
    | NoTransitions | UndeclaredFrom(index: nat) | UndeclaredTo(index: nat) | RepeatedKeys
    | UndeclaredInitial | NoTerminals | UndeclaredTerminal(state: string) | TerminalHasOutgoing(state: string)
    | Unreachable(state: string) | NoOutgoing(state: string)
    | ForbiddenUndeclared(index: nat) | ForbiddenPresent(index: nat)

  function LeavesFrom(state: string): Transition -> bool { (t: Transition) => t.from == state }

  lemma {:induction false} OutgoingCount(chart: Chart, state: string)
    ensures CountIf(LeavesFrom(state), chart.transitions) > 0 <==> HasOutgoing(chart, state)
  {
    CountZero(LeavesFrom(state), chart.transitions);
    if HasOutgoing(chart, state) {
      var i :| 0 <= i < |chart.transitions| && chart.transitions[i].from == state;
      assert LeavesFrom(state)(chart.transitions[i]);
    }
  }

  method ValidateStates(chart: Chart) returns (errors: seq<ChartError>)
    ensures errors == [] <==> GoodStates(chart)
  {
    if |chart.states| == 0 {
      return [NoStates];
    }
    UniqueMeaning(chart.states);
    errors := if Unique(chart.states) then [] else [RepeatedStates];
  }

  method ValidateTransitionShape(chart: Chart) returns (errors: seq<ChartError>)
    ensures errors == [] <==> GoodTransitions(chart)
  {
    if |chart.transitions| == 0 {
      return [NoTransitions];
    }
    errors := [];
    var transitionKeys := [];
    for i := 0 to |chart.transitions|
      invariant |transitionKeys| == i && forall k :: 0 <= k < i ==> transitionKeys[k] == Key(chart.transitions[k])
      invariant errors == [] <==> forall k :: 0 <= k < i ==>
                  chart.transitions[k].from in chart.states && chart.transitions[k].to in chart.states
    {
      if chart.transitions[i].from !in chart.states {
        errors := errors + [UndeclaredFrom(i)];
      }
      if chart.transitions[i].to !in chart.states {
        errors := errors + [UndeclaredTo(i)];
      }
      transitionKeys := transitionKeys + [Key(chart.transitions[i])];
    }
    UniqueMeaning(transitionKeys);
    assert Distinct(transitionKeys) <==> KeysDistinct(chart.transitions);
    if !Unique(transitionKeys) {
      errors := errors + [RepeatedKeys];
    }
  }

  method ValidateTerminals(chart: Chart) returns (errors: seq<ChartError>)
    ensures errors == [] <==>
            && chart.terminalStates != []
            && forall s :: s in chart.terminalStates ==> s in chart.states && !HasOutgoing(chart, s)
  {
    errors := if |chart.terminalStates| == 0 then [NoTerminals] else [];
    for i := 0 to |chart.terminalStates|
      invariant errors == [] <==>
                chart.terminalStates != []
                && forall s :: s in chart.terminalStates[..i] ==> s in chart.states && !HasOutgoing(chart, s)
    {
      var s := chart.terminalStates[i];
      OutgoingCount(chart, s);
      assert chart.terminalStates[..i + 1] == chart.terminalStates[..i] + [s];
      if s !in chart.states {
        errors := errors + [UndeclaredTerminal(s)];
      }
      if CountIf(LeavesFrom(s), chart.transitions) > 0 {
        errors := errors + [TerminalHasOutgoing(s)];
      }
    }
    assert chart.terminalStates[..|chart.terminalStates|] == chart.terminalStates;
  }

  method ValidateReachability(chart: Chart) returns (errors: seq<ChartError>)
    ensures errors == [] <==> forall s :: s in chart.states ==> Reachable(chart, s)
  {
    var reachable := ReachableStates(chart);
    errors := [];
    for i := 0 to |chart.states|
      invariant errors == [] <==> forall s :: s in chart.states[..i] ==> s in reachable
    {
      assert chart.states[..i + 1] == chart.states[..i] + [chart.states[i]];
      if chart.states[i] !in reachable {
        errors := errors + [Unreachable(chart.states[i])];
      }
    }
    assert chart.states[..|chart.states|] == chart.states;
  }

  method ValidateOutgoing(chart: Chart) returns (errors: seq<ChartError>)
    ensures errors == [] <==>
            forall s :: s in chart.states && s !in chart.terminalStates ==> HasOutgoing(chart, s)
  {
    errors := [];
    for i := 0 to |chart.states|
      invariant errors == [] <==>
                forall s :: s in chart.states[..i] && s !in chart.terminalStates ==> HasOutgoing(chart, s)
    {
      var s := chart.states[i];
      OutgoingCount(chart, s);
      assert chart.states[..i + 1] == chart.states[..i] + [s];
      if s !in chart.terminalStates && CountIf(LeavesFrom(s), chart.transitions) == 0 {
        errors := errors + [NoOutgoing(s)];
      }
    }
    assert chart.states[..|chart.states|] == chart.states;
  }

  method ValidateGraph(chart: Chart) returns (errors: seq<ChartError>)
    ensures errors == [] <==> GoodGraph(chart)
  {
    errors := if chart.initial !in chart.states then [UndeclaredInitial] else [];
    var terminals := ValidateTerminals(chart);
    var reachability := ValidateReachability(chart);
    var outgoing := ValidateOutgoing(chart);
    errors := errors + terminals + reachability + outgoing;
  }

  method ValidateForbiddenTransitions(chart: Chart) returns (errors: seq<ChartError>)
    ensures errors == [] <==> GoodForbidden(chart)
  {
    errors := [];
    for i := 0 to |chart.forbidden|
      invariant errors == [] <==> forall f :: f in chart.forbidden[..i] ==>
                  f.from in chart.states && f.to in chart.states && f !in chart.transitions
    {
      var f := chart.forbidden[i];
      assert chart.forbidden[..i + 1] == chart.forbidden[..i] + [f];
      if f.from !in chart.states || f.to !in chart.states {
        errors := errors + [ForbiddenUndeclared(i)];
      }
      if f in chart.transitions {
        errors := errors + [ForbiddenPresent(i)];
      }
    }
    assert chart.forbidden[..|chart.forbidden|] == chart.forbidden;
  }

  /** The check of one chart: no error exactly when the chart is accepted. */
  method ValidateStatechart(chart: Chart) returns (errors: seq<ChartError>)
    ensures errors == [] <==> Accepted(chart)
  {
    var states := ValidateStates(chart);
    var transitions := ValidateTransitionShape(chart);
    var graph := ValidateGraph(chart);
    var forbidden := ValidateForbiddenTransitions(chart);
    errors := states + transitions + graph + forbidden;
  }

  // ---------- every run of an accepted chart ----------

  /** The events of a run. */
  function Word(run: seq<Transition>): seq<string> {
    seq(|run|, i requires 0 <= i < |run| => run[i].event)
  }

  /** Equal from/event pairs belong to equal transitions. */
  ghost predicate Functional(transitions: seq<Transition>) {
    forall t, u :: t in transitions && u in transitions && t.from == u.from && t.event == u.event ==> t == u
  }

  ghost predicate WordsDetermineRuns(chart: Chart) {
    forall r, s :: IsRun(chart, r) && IsRun(chart, s) && Word(r) == Word(s) ==> r == s
  }

  lemma {:induction false} WordDeterminesRun(chart: Chart, r: seq<Transition>, s: seq<Transition>)
    requires Functional(chart.transitions) && IsRun(chart, r) && IsRun(chart, s) && Word(r) == Word(s)
    ensures r == s
  {
    assert |r| == |Word(r)| == |s|;
    if r != [] {
      var r', s' := r[..|r| - 1], s[..|s| - 1];
      assert Word(r') == Word(r)[..|r| - 1] == Word(s)[..|s| - 1] == Word(s');
      WordDeterminesRun(chart, r', s');
      assert Word(r)[|r| - 1] == Word(s)[|s| - 1];
      assert r == r' + [r[|r| - 1]] && s == s' + [s[|s| - 1]];
    }
  }

  lemma {:induction false} SameWordTwoWays(chart: Chart, t: Transition, u: Transition)
    requires WordsDetermineRuns(chart) && Reachable(chart, t.from)
    requires t in chart.transitions && u in chart.transitions && t.from == u.from && t.event == u.event
    ensures t == u
  {
    var run :| IsRun(chart, run) && End(chart, run) == t.from;
    RunExtends(chart, run, t);
    RunExtends(chart, run, u);
    assert Word(run + [t]) == Word(run + [u]);
    assert (run + [t])[|run|] == (run + [u])[|run|];
  }

  /** Where every state is reachable, the event word determines the run exactly
      when no two different transitions share a from/event pair. */
  lemma {:induction false} DeterminismMeaning(chart: Chart)
    requires forall t :: t in chart.transitions ==> Reachable(chart, t.from)
    ensures WordsDetermineRuns(chart) <==> Functional(chart.transitions)
  {
    hide Reachable, Word;
    if Functional(chart.transitions) {
      forall r, s | IsRun(chart, r) && IsRun(chart, s) && Word(r) == Word(s) ensures r == s {
        WordDeterminesRun(chart, r, s);
      }
    } else if WordsDetermineRuns(chart) {
      forall t, u | t in chart.transitions && u in chart.transitions && t.from == u.from && t.event == u.event
        ensures t == u
      {
        SameWordTwoWays(chart, t, u);
      }
      assert false;
    }
  }

  lemma {:induction false} DistinctKeysAreFunctional(transitions: seq<Transition>)
    requires KeysDistinct(transitions)
    ensures Functional(transitions)
  {
    forall t, u | t in transitions && u in transitions && t.from == u.from && t.event == u.event ensures t == u {
      var i :| 0 <= i < |transitions| && transitions[i] == t;
      var j :| 0 <= j < |transitions| && transitions[j] == u;
      assert Key(transitions[i]) == Key(transitions[j]);
    }
  }

  lemma {:induction false} AcceptedTransition(chart: Chart, t: Transition)
    requires Accepted(chart) && t in chart.transitions
    ensures t.from in chart.states && t.to in chart.states
    ensures t !in chart.forbidden && t.from !in chart.terminalStates
  {
    hide Reachable;
    var k :| 0 <= k < |chart.transitions| && chart.transitions[k] == t;
    assert HasOutgoing(chart, t.from);
  }

  lemma {:induction false} RunIsDeclared(chart: Chart, run: seq<Transition>)
    requires Accepted(chart) && IsRun(chart, run)
    ensures forall i :: 0 <= i < |run| ==>
              run[i].from in chart.states && run[i].to in chart.states && run[i] !in chart.forbidden
  {
    hide Accepted;
    if run != [] {
      RunIsDeclared(chart, run[..|run| - 1]);
      AcceptedTransition(chart, run[|run| - 1]);
    }
  }

  lemma {:induction false} EndIsDeclared(chart: Chart, run: seq<Transition>)
    requires Accepted(chart) && IsRun(chart, run)
    ensures End(chart, run) in chart.states
  {
    hide Reachable;
    if run != [] {
      AcceptedTransition(chart, run[|run| - 1]);
    }
  }

  lemma {:induction false} LeavesNonTerminal(chart: Chart, state: string) returns (t: Transition)
    requires Accepted(chart) && state in chart.states && state !in chart.terminalStates
    ensures t in chart.transitions && t.from == state
  {
    hide Reachable;
    assert HasOutgoing(chart, state);
    var i :| 0 <= i < |chart.transitions| && chart.transitions[i].from == state;
    t := chart.transitions[i];
  }

  /** A run can go on exactly when its state is not terminal. */
  lemma {:induction false} RunGoesOn(chart: Chart, run: seq<Transition>)
    requires Accepted(chart) && IsRun(chart, run)
    ensures (exists t :: IsRun(chart, run + [t])) <==> End(chart, run) !in chart.terminalStates
  {
    hide Accepted;
    if End(chart, run) !in chart.terminalStates {
      EndIsDeclared(chart, run);
      var t := LeavesNonTerminal(chart, End(chart, run));
      RunExtends(chart, run, t);
    }
    if t :| IsRun(chart, run + [t]) {
      assert (run + [t])[..|run|] == run;
      AcceptedTransition(chart, t);
    }
  }

  /** Every run stays in declared states and takes no forbidden transition; it can
      go on exactly when its state is not terminal; the states the runs end in are
      exactly the declared ones; and the event word determines the run. */
  lemma {:induction false} AcceptedRuns(chart: Chart)
    requires Accepted(chart)
    ensures forall run: seq<Transition>, i :: IsRun(chart, run) && 0 <= i < |run| ==>
              run[i].from in chart.states && run[i].to in chart.states && run[i] !in chart.forbidden
    ensures forall run :: IsRun(chart, run) ==>
              ((exists t :: IsRun(chart, run + [t])) <==> End(chart, run) !in chart.terminalStates)
    ensures forall s :: s in chart.states <==> Reachable(chart, s)
    ensures WordsDetermineRuns(chart)
  {
    hide Accepted, Reachable, WordsDetermineRuns;
    forall run: seq<Transition> | IsRun(chart, run)
      ensures End(chart, run) in chart.states
      ensures forall i :: 0 <= i < |run| ==>
                run[i].from in chart.states && run[i].to in chart.states && run[i] !in chart.forbidden
      ensures (exists t :: IsRun(chart, run + [t])) <==> End(chart, run) !in chart.terminalStates
    {
      RunIsDeclared(chart, run);
      EndIsDeclared(chart, run);
      RunGoesOn(chart, run);
    }
    AcceptedStates(chart);
    AcceptedDeterminism(chart);
  }

  lemma {:induction false} AcceptedStates(chart: Chart)
    requires Accepted(chart)
    ensures forall s :: s in chart.states <==> Reachable(chart, s)
  {
    forall s | Reachable(chart, s) ensures s in chart.states {
      var run :| IsRun(chart, run) && End(chart, run) == s;
      EndIsDeclared(chart, run);
    }
  }

  lemma {:induction false} AcceptedDeterminism(chart: Chart)
    requires Accepted(chart)
    ensures WordsDetermineRuns(chart)
  {
    hide WordsDetermineRuns;
    DistinctKeysAreFunctional(chart.transitions);
    forall t | t in chart.transitions ensures Reachable(chart, t.from) {
      AcceptedTransition(chart, t);
    }
    DeterminismMeaning(chart);
  }
}
