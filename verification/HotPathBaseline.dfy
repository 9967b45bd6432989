/** The count baseline of the hot-path diagnostics check: a report passes with up to
    as many findings per identity as the baseline file holds.

    Identities form a multiset.  Applying a baseline is multiset difference, a clean
    report is a sub-multiset of the baseline, and a baseline that is only rewritten
    from clean reports can never grow. */
module HotPathBaseline {
  import opened Lists
  import opened Text

  datatype Violation = Violation(filePath: string, kind: string, functionName: string, line: int, column: int)

  /** Line and column are deliberately left out. */
  function Identity(v: Violation): string { v.filePath + "|" + v.kind + "|" + v.functionName }

  /** What the bars of an identity separate. */
  function Pieces(v: Violation): seq<string> {
    Split(v.filePath, '|') + (Split(v.kind, '|') + Split(v.functionName, '|'))
  }

  lemma {:induction false} IdentityPieces(v: Violation)
    ensures Split(Identity(v), '|') == Pieces(v)
  {
    hide Split;
    var rest := v.kind + (['|'] + v.functionName);
    assert Identity(v) == v.filePath + (['|'] + rest);
    SplitConcat(v.filePath, rest, '|');
    SplitConcat(v.kind, v.functionName, '|');
  }

  /** Two findings share an allowance exactly when their file, kind and function read
      alike once all bars are taken as separators. */
  lemma {:induction false} IdentityMeaning(a: Violation, b: Violation)
    ensures Identity(a) == Identity(b) <==> Pieces(a) == Pieces(b)
  {
    IdentityPieces(a);
    IdentityPieces(b);
    JoinSplit(Identity(a), '|');
    JoinSplit(Identity(b), '|');
  }

  /** Without a bar in the file and the kind the identity tells the triples apart. */
  lemma {:induction false} IdentityWithoutBars(a: Violation, b: Violation)
    requires '|' !in a.filePath && '|' !in a.kind && '|' !in b.filePath && '|' !in b.kind
    ensures Identity(a) == Identity(b)
       <==> a.filePath == b.filePath && a.kind == b.kind && a.functionName == b.functionName
  {
    hide Split, Identity;
    IdentityMeaning(a, b);
    SplitWhole(a.filePath, '|');
    SplitWhole(a.kind, '|');
    SplitWhole(b.filePath, '|');
    SplitWhole(b.kind, '|');
    JoinSplit(a.functionName, '|');
    JoinSplit(b.functionName, '|');
    if Pieces(a) == Pieces(b) {
      assert Pieces(a)[0] == a.filePath && Pieces(a)[1] == a.kind && Pieces(a)[2..] == Split(a.functionName, '|');
      assert Pieces(b)[0] == b.filePath && Pieces(b)[1] == b.kind && Pieces(b)[2..] == Split(b.functionName, '|');
    }
  }

  /** With one, findings of one kind in two files and two functions share an allowance. */
  lemma {:induction false} BarCollision(x: string, y: string, z: string, kind: string)
    ensures var a := Violation(x, kind, y + "|" + kind + "|" + z, 0, 0);
            var b := Violation(x + "|" + kind + "|" + y, kind, z, 0, 0);
            Identity(a) == Identity(b) && a.filePath != b.filePath && a.functionName != b.functionName
  {
    var a := Violation(x, kind, y + "|" + kind + "|" + z, 0, 0);
    var b := Violation(x + "|" + kind + "|" + y, kind, z, 0, 0);
    assert Identity(a) == x + "|" + kind + "|" + y + "|" + kind + "|" + z;
    assert |a.filePath| < |b.filePath| && |a.functionName| > |b.functionName|;
  }

  function Identities(vs: seq<Violation>): seq<string> {
    seq(|vs|, i requires 0 <= i < |vs| => Identity(vs[i]))
  }

  /** The identities of a report with their multiplicities. */
  ghost function Bag(vs: seq<Violation>): multiset<string> { multiset(Identities(vs)) }

  /** How often an identity is reported. */
  ghost function Times(vs: seq<Violation>, id: string): nat { Bag(vs)[id] }

  /** What is left of `a` after taking away up to `b`. */
  function Less(a: nat, b: nat): nat { if a <= b then 0 else a - b }

  function Allowance(m: map<string, nat>, id: string): nat { if id in m then m[id] else 0 }

  lemma {:induction false} BagGrows(vs: seq<Violation>, v: Violation)
    ensures Bag(vs + [v]) == Bag(vs) + multiset{Identity(v)}
  {
    assert Identities(vs + [v]) == Identities(vs) + [Identity(v)];
  }

  lemma {:induction false} TimesGrows(vs: seq<Violation>, v: Violation, id: string)
    ensures Times(vs + [v], id) == Times(vs, id) + if id == Identity(v) then 1 else 0
  {
    BagGrows(vs, v);
  }

  lemma {:induction false} BagSize(vs: seq<Violation>)
    ensures |Bag(vs)| == |vs|
  {
  }

  lemma {:induction false} NothingReported()
    ensures forall id :: Times([], id) == 0
  {
  }

  /** The allowances of a baseline file with the given entries; none without a file. */
  ghost predicate Allows(allowed: map<string, nat>, entries: seq<Violation>) {
    forall id :: Allowance(allowed, id) == Times(entries, id)
  }

  method LoadBaseline(file: Option<seq<Violation>>) returns (allowedCounts: map<string, nat>)
    ensures Allows(allowedCounts, if file.Some? then file.value else [])
  {
    hide Times, Identity;
    allowedCounts := map[];
    NothingReported();
    if file.None? {
      return;
    }
    var violations := file.value;
    for i := 0 to |violations|
      invariant forall id :: Allowance(allowedCounts, id) == Times(violations[..i], id)
    {
      assert violations[..i + 1] == violations[..i] + [violations[i]];
      var identity := Identity(violations[i]);
      forall id ensures Times(violations[..i + 1], id) == Times(violations[..i], id) + if id == identity then 1 else 0 {
        TimesGrows(violations[..i], violations[i], id);
      }
      ghost var before := allowedCounts;
      allowedCounts := allowedCounts[identity := Allowance(allowedCounts, identity) + 1];
      assert forall id :: Allowance(allowedCounts, id) == Allowance(before, id) + if id == identity then 1 else 0;
    }
    assert violations[..|violations|] == violations;
  }

  // ---------- applying a baseline ----------

  /** The findings past their allowance, in report order: a finding is new when its
      allowance was used up by earlier findings of the same identity. */
  ghost function NewOnes(report: seq<Violation>, entries: seq<Violation>): seq<Violation> {
    if report == [] then []
    else
      var init, last := report[..|report| - 1], report[|report| - 1];
      NewOnes(init, entries) + if Times(init, Identity(last)) < Times(entries, Identity(last)) then [] else [last]
  }

  method ApplyBaseline(report: seq<Violation>, baseline: map<string, nat>, ghost entries: seq<Violation>)
    returns (newViolations: seq<Violation>, inheritedViolationCount: nat)
    requires Allows(baseline, entries)
    ensures newViolations == NewOnes(report, entries)
    ensures inheritedViolationCount == |Inherited(report, entries)| == |report| - |newViolations|
  {
    InheritedSize(report, entries);
    hide Times, Identity;
    newViolations, inheritedViolationCount := [], 0;
    NothingReported();
    var remainingAllowance := baseline;
    for i := 0 to |report|
      invariant newViolations == NewOnes(report[..i], entries)
      invariant inheritedViolationCount + |newViolations| == i
      invariant forall id :: Allowance(remainingAllowance, id) == Less(Times(entries, id), Times(report[..i], id))
    {
      var identity := Identity(report[i]);
      assert report[..i + 1] == report[..i] + [report[i]];
      assert report[..i + 1][..i] == report[..i];
      forall id ensures Times(report[..i + 1], id) == Times(report[..i], id) + if id == identity then 1 else 0 {
        TimesGrows(report[..i], report[i], id);
      }
      var allowance := Allowance(remainingAllowance, identity);
      if allowance > 0 {
        remainingAllowance := remainingAllowance[identity := allowance - 1];
        inheritedViolationCount := inheritedViolationCount + 1;
      } else {
        newViolations := newViolations + [report[i]];
      }
    }
    assert report[..|report|] == report;
  }

  /** Applying a baseline takes the baseline's multiset away from the report's. */
  lemma {:induction false} NewOnesAreDifference(report: seq<Violation>, entries: seq<Violation>)
    ensures Bag(NewOnes(report, entries)) == Bag(report) - Bag(entries)
  {
    if report != [] {
      var init, last := report[..|report| - 1], report[|report| - 1];
      NewOnesAreDifference(init, entries);
      assert report == init + [last];
      BagGrows(init, last);
      BagGrows(NewOnes(init, entries), last);
      if Times(init, Identity(last)) < Times(entries, Identity(last)) {
        assert NewOnes(report, entries) == NewOnes(init, entries);
        assert Bag(report) - Bag(entries) == Bag(init) - Bag(entries);
      }
    }
  }

  /** The findings within their allowance. */
  ghost function Inherited(report: seq<Violation>, entries: seq<Violation>): seq<Violation> {
    if report == [] then []
    else
      var init, last := report[..|report| - 1], report[|report| - 1];
      Inherited(init, entries) + if Times(init, Identity(last)) < Times(entries, Identity(last)) then [last] else []
  }

  function Least(a: nat, b: nat): nat { if a < b then a else b }

  /** Per identity the smaller of count and allowance is inherited, and the excess is new. */
  lemma {:induction false} SplitPerIdentity(report: seq<Violation>, entries: seq<Violation>, id: string)
    ensures Times(Inherited(report, entries), id) == Least(Times(report, id), Times(entries, id))
    ensures Times(NewOnes(report, entries), id) == Less(Times(report, id), Times(entries, id))
  {
    NewOnesAreDifference(report, entries);
    InheritedTimes(report, entries, id);
  }

  lemma {:induction false} InheritedTimes(report: seq<Violation>, entries: seq<Violation>, id: string)
    ensures Times(Inherited(report, entries), id) == Least(Times(report, id), Times(entries, id))
  {
    if report == [] {
      NothingReported();
    } else {
      hide Times, Identity;
      var init, last := report[..|report| - 1], report[|report| - 1];
      var before := Inherited(init, entries);
      InheritedTimes(init, entries, id);
      assert report == init + [last];
      TimesGrows(init, last, id);
      TimesGrows(before, last, id);
      if Times(init, Identity(last)) < Times(entries, Identity(last)) {
        assert Inherited(report, entries) == before + [last];
      } else {
        assert Inherited(report, entries) == before;
      }
    }
  }

  /** Every finding is inherited or new. */
  lemma {:induction false} InheritedSize(report: seq<Violation>, entries: seq<Violation>)
    ensures |Inherited(report, entries)| + |NewOnes(report, entries)| == |report|
  {
    if report != [] {
      InheritedSize(report[..|report| - 1], entries);
    }
  }

  /** What is new does not depend on the order of the report. */
  lemma {:induction false} OrderIrrelevant(report: seq<Violation>, report': seq<Violation>, entries: seq<Violation>)
    requires multiset(report) == multiset(report')
    ensures Bag(NewOnes(report, entries)) == Bag(NewOnes(report', entries))
    ensures |NewOnes(report, entries)| == |NewOnes(report', entries)|
  {
    BagReordered(report, report');
    NewOnesAreDifference(report, entries);
    NewOnesAreDifference(report', entries);
    BagSize(NewOnes(report, entries));
    BagSize(NewOnes(report', entries));
  }

  lemma {:induction false} BagReordered(a: seq<Violation>, b: seq<Violation>)
    requires multiset(a) == multiset(b)
    ensures Bag(a) == Bag(b)
  {
    if a == [] {
      assert |multiset(b)| == |b|;
    } else {
      var u, v := Around(a, b);
      BagReordered(a[..|a| - 1], u + v);
      var x := a[|a| - 1];
      assert a == a[..|a| - 1] + [x];
      BagGrows(a[..|a| - 1], x);
      assert Identities(u + [x] + v) == Identities(u) + [Identity(x)] + Identities(v);
      assert Identities(u + v) == Identities(u) + Identities(v);
    }
  }

  /** The check passes. */
  ghost predicate Clean(report: seq<Violation>, entries: seq<Violation>) { NewOnes(report, entries) == [] }

  /** A report is clean exactly when it is a sub-multiset of the baseline. */
  lemma {:induction false} CleanMeaning(report: seq<Violation>, entries: seq<Violation>)
    ensures Clean(report, entries) <==> Bag(report) <= Bag(entries)
  {
    NewOnesAreDifference(report, entries);
    BagSize(NewOnes(report, entries));
    if Bag(report) <= Bag(entries) {
      assert Bag(report) - Bag(entries) == multiset{};
    }
    if Clean(report, entries) {
      forall id ensures Bag(report)[id] <= Bag(entries)[id] {
        assert (Bag(report) - Bag(entries))[id] == 0;
      }
    }
  }

  /** The check against the baseline file. */
  method CheckReport(report: seq<Violation>, file: Option<seq<Violation>>)
    returns (newViolations: seq<Violation>, inheritedViolationCount: nat)
    ensures var entries := if file.Some? then file.value else [];
            && newViolations == NewOnes(report, entries)
            && inheritedViolationCount == |Inherited(report, entries)| == |report| - |newViolations|
            && (newViolations == [] <==> Bag(report) <= Bag(entries))
  {
    hide NewOnes;
    var baseline := LoadBaseline(file);
    ghost var entries := if file.Some? then file.value else [];
    newViolations, inheritedViolationCount := ApplyBaseline(report, baseline, entries);
    CleanMeaning(report, entries);
  }

  /** A baseline written from a report accepts that report. */
  lemma {:induction false} WrittenBaselineAccepts(report: seq<Violation>)
    ensures Clean(report, report)
  {
    CleanMeaning(report, report);
  }

  // ---------- the ratchet ----------

  /** A check of a report, or a rewrite of the baseline from one. */
  datatype Step = Check(report: seq<Violation>) | Rewrite(report: seq<Violation>)

  function BaselineAfter(entries: seq<Violation>, steps: seq<Step>): seq<Violation> {
    if steps == [] then entries
    else if steps[|steps| - 1].Rewrite? then steps[|steps| - 1].report
    else BaselineAfter(entries, steps[..|steps| - 1])
  }

  /** Every rewrite takes a report that is clean at its time. */
  ghost predicate OnlyCleanRewrites(entries: seq<Violation>, steps: seq<Step>) {
    forall i :: 0 <= i < |steps| && steps[i].Rewrite? ==> Clean(steps[i].report, BaselineAfter(entries, steps[..i]))
  }

  /** Over any run that rewrites only from clean reports the baseline never grows, so
      a report that passes at the end would have passed at the beginning. */
  lemma {:induction false} RatchetNeverGrows(entries: seq<Violation>, steps: seq<Step>)
    requires OnlyCleanRewrites(entries, steps)
    ensures Bag(BaselineAfter(entries, steps)) <= Bag(entries)
    ensures forall report :: Clean(report, BaselineAfter(entries, steps)) ==> Clean(report, entries)
  {
    hide Clean;
    if steps != [] {
      var init, last := steps[..|steps| - 1], steps[|steps| - 1];
      assert OnlyCleanRewrites(entries, init) by {
        assert forall i :: 0 <= i < |init| ==> init[i] == steps[i] && init[..i] == steps[..i];
      }
      RatchetNeverGrows(entries, init);
      if last.Rewrite? {
        CleanMeaning(last.report, BaselineAfter(entries, init));
      }
    }
    forall report | Clean(report, BaselineAfter(entries, steps)) ensures Clean(report, entries) {
      CleanMeaning(report, BaselineAfter(entries, steps));
      CleanMeaning(report, entries);
    }
  }

  /** No rewrite of the run leaves the baseline with more than it found. */
  ghost predicate NeverGrows(entries: seq<Violation>, steps: seq<Step>) {
    forall i :: 0 <= i < |steps| ==> Bag(AfterStep(entries, steps, i)) <= Bag(BaselineAfter(entries, steps[..i]))
  }

  ghost function AfterStep(entries: seq<Violation>, steps: seq<Step>, i: nat): seq<Violation>
    requires i < |steps|
  {
    BaselineAfter(entries, steps[..i + 1])
  }

  /** Rewriting from clean reports only is not just enough for that, it is needed. */
  lemma {:induction false} RatchetExactly(entries: seq<Violation>, steps: seq<Step>)
    ensures NeverGrows(entries, steps) <==> OnlyCleanRewrites(entries, steps)
  {
    hide Clean;
    forall i | 0 <= i < |steps|
      ensures Bag(AfterStep(entries, steps, i)) <= Bag(BaselineAfter(entries, steps[..i]))
         <==> (steps[i].Rewrite? ==> Clean(steps[i].report, BaselineAfter(entries, steps[..i])))
    {
      assert steps[..i + 1][..i] == steps[..i];
      if steps[i].Rewrite? {
        CleanMeaning(steps[i].report, BaselineAfter(entries, steps[..i]));
      }
    }
  }
}
