/** The two-strikes analyzer: a soft warning code that appears in the two most recent
    runs of a scenario is a strike. */
module WarningStrikes {
  import opened Lists

  /** One scenario entry of a run report. */
  datatype Run = Run(scenario: string, timestamp: int, codes: set<string>)

  datatype Strike = Strike(scenario: string, code: string)

  // ---------- what a strike is ----------

  ghost predicate Ran(runs: seq<Run>, scenario: string, t: int) {
    exists i :: 0 <= i < |runs| && runs[i].scenario == scenario && runs[i].timestamp == t
  }

  ghost predicate Warned(runs: seq<Run>, scenario: string, t: int, code: string) {
    exists i :: 0 <= i < |runs| && runs[i].scenario == scenario && runs[i].timestamp == t && code in runs[i].codes
  }

  /** The two greatest timestamps of a scenario. */
  ghost predicate TwoLatest(runs: seq<Run>, scenario: string, previous: int, latest: int) {
    && previous < latest && Ran(runs, scenario, previous) && Ran(runs, scenario, latest)
    && forall t :: Ran(runs, scenario, t) ==> t <= previous || t == latest
  }

  ghost predicate Struck(runs: seq<Run>, s: Strike) {
    exists previous, latest :: TwoLatest(runs, s.scenario, previous, latest)
                               && Warned(runs, s.scenario, previous, s.code) && Warned(runs, s.scenario, latest, s.code)
  }

  // ---------- grouping ----------

  /** The runs of one scenario: the timestamps in order of arrival, and the merged
      codes of each. */
  datatype Timeline = Timeline(order: seq<int>, codes: map<int, set<string>>)

  const EMPTY := Timeline([], map[])

  ghost predicate Records(tl: Timeline, runs: seq<Run>, scenario: string) {
    && Distinct(tl.order)
    && (forall t :: t in tl.order <==> Ran(runs, scenario, t))
    && (forall t :: t in tl.codes <==> Ran(runs, scenario, t))
    && (forall t, code :: t in tl.codes ==> (code in tl.codes[t] <==> Warned(runs, scenario, t, code)))
  }

  function Note(tl: Timeline, run: Run): Timeline {
    if run.timestamp in tl.codes then
      tl.(codes := tl.codes[run.timestamp := tl.codes[run.timestamp] + run.codes])
    else
      Timeline(tl.order + [run.timestamp], tl.codes[run.timestamp := run.codes])
  }

  lemma {:induction false} RanGrows(runs: seq<Run>, run: Run, scenario: string, t: int)
    ensures Ran(runs + [run], scenario, t)
       <==> Ran(runs, scenario, t) || (run.scenario == scenario && run.timestamp == t)
  {
    var all := runs + [run];
    assert all[|runs|] == run;
    if i :| 0 <= i < |runs| && runs[i].scenario == scenario && runs[i].timestamp == t {
      assert all[i] == runs[i];
    }
  }

  lemma {:induction false} WarnedGrows(runs: seq<Run>, run: Run, scenario: string, t: int, code: string)
    ensures Warned(runs + [run], scenario, t, code)
       <==> Warned(runs, scenario, t, code) || (run.scenario == scenario && run.timestamp == t && code in run.codes)
  {
    var all := runs + [run];
    assert all[|runs|] == run;
    if i :| 0 <= i < |runs| && runs[i].scenario == scenario && runs[i].timestamp == t && code in runs[i].codes {
      assert all[i] == runs[i];
    }
  }

  lemma {:induction false} WarnedRan(runs: seq<Run>, scenario: string, t: int, code: string)
    requires Warned(runs, scenario, t, code)
    ensures Ran(runs, scenario, t)
  {
  }

  lemma {:induction false} NoteRecords(tl: Timeline, runs: seq<Run>, run: Run)
    requires Records(tl, runs, run.scenario)
    ensures Records(Note(tl, run), runs + [run], run.scenario)
  {
    hide Ran, Warned;
    var s := run.scenario;
    forall t ensures Ran(runs + [run], s, t) <==> Ran(runs, s, t) || run.timestamp == t {
      RanGrows(runs, run, s, t);
    }
    forall t, code
      ensures Warned(runs + [run], s, t, code)
         <==> Warned(runs, s, t, code) || (run.timestamp == t && code in run.codes)
    {
      WarnedGrows(runs, run, s, t, code);
    }
    forall t, code | Warned(runs, s, t, code) ensures Ran(runs, s, t) {
      WarnedRan(runs, s, t, code);
    }
    if run.timestamp !in tl.codes {
      DistinctAppend(tl.order, run.timestamp);
    }
  }

  lemma {:induction false} OtherRecords(tl: Timeline, runs: seq<Run>, run: Run, scenario: string)
    requires Records(tl, runs, scenario) && run.scenario != scenario
    ensures Records(tl, runs + [run], scenario)
  {
    hide Ran, Warned;
    forall t ensures Ran(runs + [run], scenario, t) <==> Ran(runs, scenario, t) {
      RanGrows(runs, run, scenario, t);
    }
    forall t, code ensures Warned(runs + [run], scenario, t, code) <==> Warned(runs, scenario, t, code) {
      WarnedGrows(runs, run, scenario, t, code);
    }
  }

  function TimelineAt(m: map<string, Timeline>, scenario: string): Timeline {
    if scenario in m then m[scenario] else EMPTY
  }

  /** The runs grouped by scenario; copies of a run merge with it. */
  method GroupRunsByScenario(runs: seq<Run>) returns (byScenario: map<string, Timeline>)
    ensures forall s :: Records(TimelineAt(byScenario, s), runs, s)
  {
    hide Records;
    byScenario := map[];
    forall s ensures Records(EMPTY, [], s) {
      NothingRecorded(s);
    }
    for i := 0 to |runs|
      invariant forall s :: Records(TimelineAt(byScenario, s), runs[..i], s)
    {
      var run := runs[i];
      assert runs[..i + 1] == runs[..i] + [run];
      ghost var before := byScenario;
      byScenario := byScenario[run.scenario := Note(TimelineAt(byScenario, run.scenario), run)];
      forall s ensures Records(TimelineAt(byScenario, s), runs[..i + 1], s) {
        assert Records(TimelineAt(before, s), runs[..i], s);
        if s == run.scenario {
          NoteRecords(TimelineAt(before, s), runs[..i], run);
        } else {
          OtherRecords(TimelineAt(before, s), runs[..i], run, s);
        }
      }
    }
    assert runs[..|runs|] == runs;
  }

  lemma {:induction false} NothingRecorded(scenario: string)
    ensures Records(EMPTY, [], scenario)
  {
  }

  // ---------- detecting ----------

  /** The codes in both of the two most recent runs. */
  function StruckCodes(tl: Timeline): set<string>
    requires forall t :: t in tl.order ==> t in tl.codes
  {
    if |tl.order| < 2 then {}
    else
      SortSorts(Self, tl.order);
      var sorted := SortBy(Self, tl.order);
      assert sorted[|sorted| - 2] in multiset(sorted) && sorted[|sorted| - 1] in multiset(sorted);
      tl.codes[sorted[|sorted| - 2]] * tl.codes[sorted[|sorted| - 1]]
  }

  lemma {:induction false} LastTwo(order: seq<int>, sorted: seq<int>)
    requires Distinct(order) && |order| >= 2 && sorted == SortBy(Self, order)
    ensures |sorted| == |order|
    ensures var previous, latest := sorted[|sorted| - 2], sorted[|sorted| - 1];
            previous < latest && previous in order && latest in order
            && forall t :: t in order ==> t <= previous || t == latest
  {
    hide SortBy;
    SortSorts(Self, order);
    var previous, latest := sorted[|sorted| - 2], sorted[|sorted| - 1];
    assert previous in multiset(sorted) && latest in multiset(sorted);
    assert Self(previous) <= Self(latest);
    forall t | t in order ensures t <= previous || t == latest {
      assert t in multiset(sorted);
      var k :| 0 <= k < |sorted| && sorted[k] == t;
      assert k < |sorted| - 2 ==> Self(sorted[k]) <= Self(sorted[|sorted| - 2]);
    }
    DistinctReordered(order, sorted);
  }

  lemma {:induction false} TwoLatestUnique(runs: seq<Run>, scenario: string, p: int, l: int, p': int, l': int)
    requires TwoLatest(runs, scenario, p, l) && TwoLatest(runs, scenario, p', l')
    ensures p == p' && l == l'
  {
  }

  lemma {:induction false} TwoOnTimeline(tl: Timeline, runs: seq<Run>, scenario: string, p: int, l: int)
    requires Records(tl, runs, scenario) && TwoLatest(runs, scenario, p, l)
    ensures |tl.order| >= 2
  {
    hide Ran, Warned;
    assert p in tl.order && l in tl.order;
  }

  /** The codes found on a timeline are the strikes of its scenario. */
  lemma {:induction false} StruckCodesMeaning(tl: Timeline, runs: seq<Run>, scenario: string, code: string)
    requires Records(tl, runs, scenario)
    ensures code in StruckCodes(tl) <==> Struck(runs, Strike(scenario, code))
  {
    hide Ran, Warned;
    forall p, l | TwoLatest(runs, scenario, p, l) ensures |tl.order| >= 2 {
      TwoOnTimeline(tl, runs, scenario, p, l);
    }
    if |tl.order| >= 2 {
      var sorted := SortBy(Self, tl.order);
      LastTwo(tl.order, sorted);
      var previous, latest := sorted[|sorted| - 2], sorted[|sorted| - 1];
      assert TwoLatest(runs, scenario, previous, latest);
      if p, l :| TwoLatest(runs, scenario, p, l) && Warned(runs, scenario, p, code) && Warned(runs, scenario, l, code) {
        TwoLatestUnique(runs, scenario, p, l, previous, latest);
      }
    }
  }

  method DetectStrikes(runsByScenario: map<string, Timeline>, ghost runs: seq<Run>) returns (strikes: set<Strike>)
    requires forall s :: Records(TimelineAt(runsByScenario, s), runs, s)
    ensures forall s :: s in strikes <==> Struck(runs, s)
  {
    hide Records, Struck, StruckCodes;
    strikes := {};
    var todo := runsByScenario.Keys;
    while todo != {}
      invariant todo <= runsByScenario.Keys
      invariant forall s :: s in strikes <==> s.scenario in runsByScenario.Keys - todo && Struck(runs, s)
    {
      var scenario :| scenario in todo;
      assert Records(TimelineAt(runsByScenario, scenario), runs, scenario);
      RecordedTimes(runsByScenario[scenario], runs, scenario);
      var codes := StruckCodes(runsByScenario[scenario]);
      forall code ensures code in codes <==> Struck(runs, Strike(scenario, code)) {
        StruckCodesMeaning(runsByScenario[scenario], runs, scenario, code);
      }
      strikes := strikes + set code | code in codes :: Strike(scenario, code);
      todo := todo - {scenario};
    }
    forall s | Struck(runs, s) ensures s.scenario in runsByScenario {
      assert Records(TimelineAt(runsByScenario, s.scenario), runs, s.scenario);
      StruckIsRecorded(runsByScenario, runs, s);
    }
  }

  lemma {:induction false} RecordedTimes(tl: Timeline, runs: seq<Run>, scenario: string)
    requires Records(tl, runs, scenario)
    ensures forall t :: t in tl.order ==> t in tl.codes
  {
  }

  lemma {:induction false} StruckIsRecorded(m: map<string, Timeline>, runs: seq<Run>, s: Strike)
    requires Records(TimelineAt(m, s.scenario), runs, s.scenario) && Struck(runs, s)
    ensures s.scenario in m
  {
    StruckCodesMeaning(TimelineAt(m, s.scenario), runs, s.scenario, s.code);
  }

  // ---------- the analysis ----------

  function OfScenario(scenario: string): Run -> bool { (r: Run) => r.scenario == scenario }

  /** The strikes depend on the set of runs only: neither the order of the files nor
      repeated copies matter. */
  lemma {:induction false} SetOfRunsDecides(a: seq<Run>, b: seq<Run>, s: Strike)
    requires forall r: Run :: r.scenario == s.scenario ==> (r in a <==> r in b)
    ensures Struck(a, s) <==> Struck(b, s)
  {
    forall t ensures Ran(a, s.scenario, t) <==> Ran(b, s.scenario, t) {
      SameRan(a, b, s.scenario, t);
      SameRan(b, a, s.scenario, t);
    }
    forall t ensures Warned(a, s.scenario, t, s.code) <==> Warned(b, s.scenario, t, s.code) {
      SameWarned(a, b, s.scenario, t, s.code);
      SameWarned(b, a, s.scenario, t, s.code);
    }
    hide Ran, Warned;
    if p, l :| TwoLatest(a, s.scenario, p, l) && Warned(a, s.scenario, p, s.code) && Warned(a, s.scenario, l, s.code) {
      assert TwoLatest(b, s.scenario, p, l);
    }
    if p, l :| TwoLatest(b, s.scenario, p, l) && Warned(b, s.scenario, p, s.code) && Warned(b, s.scenario, l, s.code) {
      assert TwoLatest(a, s.scenario, p, l);
    }
  }

  lemma {:induction false} SameRan(a: seq<Run>, b: seq<Run>, scenario: string, t: int)
    requires forall r: Run :: r.scenario == scenario && r in a ==> r in b
    ensures Ran(a, scenario, t) ==> Ran(b, scenario, t)
  {
    if i :| 0 <= i < |a| && a[i].scenario == scenario && a[i].timestamp == t {
      assert a[i] in b;
    }
  }

  lemma {:induction false} SameWarned(a: seq<Run>, b: seq<Run>, scenario: string, t: int, code: string)
    requires forall r: Run :: r.scenario == scenario && r in a ==> r in b
    ensures Warned(a, scenario, t, code) ==> Warned(b, scenario, t, code)
  {
    if i :| 0 <= i < |a| && a[i].scenario == scenario && a[i].timestamp == t && code in a[i].codes {
      assert a[i] in b;
    }
  }

  /** Analyzing one scenario alone finds its strikes of the whole corpus. */
  method AnalyzeSoftWarningStrikes(runs: seq<Run>, scenario: Option<string>) returns (strikes: set<Strike>)
    ensures forall s :: s in strikes <==> (scenario.None? || s.scenario == scenario.value) && Struck(runs, s)
  {
    var filtered := if scenario.Some? then Filter(OfScenario(scenario.value), runs) else runs;
    var byScenario := GroupRunsByScenario(filtered);
    strikes := DetectStrikes(byScenario, filtered);
    if scenario.Some? {
      forall s ensures Struck(filtered, s) <==> s.scenario == scenario.value && Struck(runs, s) {
        FilteredStrikes(runs, scenario.value, s);
      }
    }
  }

  lemma {:induction false} StruckRan(runs: seq<Run>, s: Strike) returns (r: Run)
    requires Struck(runs, s)
    ensures r in runs && r.scenario == s.scenario
  {
    var p, l :| TwoLatest(runs, s.scenario, p, l);
    var i :| 0 <= i < |runs| && runs[i].scenario == s.scenario;
    r := runs[i];
  }

  lemma {:induction false} FilteredStrikes(runs: seq<Run>, scenario: string, s: Strike)
    ensures Struck(Filter(OfScenario(scenario), runs), s) <==> s.scenario == scenario && Struck(runs, s)
  {
    var filtered := Filter(OfScenario(scenario), runs);
    forall r ensures r in filtered <==> r in runs && r.scenario == scenario {
      FilterMember(OfScenario(scenario), runs, r);
    }
    if s.scenario == scenario {
      SetOfRunsDecides(filtered, runs, s);
    } else if Struck(filtered, s) {
      var r := StruckRan(filtered, s);
      assert false;
    }
  }
}
