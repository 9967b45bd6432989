/** The decision-table checker: it enumerates every combination of input values and
    demands exactly one matching rule for each.

    The theorems say what acceptance means without the enumeration: the table is a
    total function of its inputs whatever the order of its rules, and it is
    accepted exactly when its rules exclude one another pairwise and their sizes
    add up to the number of combinations. */
module DecisionTables {
  import opened Lists

  const WILDCARD := "*"

  datatype Input = Input(name: string, values: seq<string>)

  datatype Rule = Rule(id: string, when: map<string, string>, outcome: map<string, string>)

  datatype Table = Table(inputs: seq<Input>, outputs: seq<Input>, rules: seq<Rule>)

  type Assignment = map<string, string>

  // ---------- the cartesian product ----------

  function WithValues(partial: Assignment, name: string, values: seq<string>): seq<Assignment> {
    if values == [] then []
    else WithValues(partial, name, values[..|values| - 1]) + [partial[name := values[|values| - 1]]]
  }

  function Extend(acc: seq<Assignment>, input: Input): seq<Assignment> {
    if acc == [] then []
    else Extend(acc[..|acc| - 1], input) + WithValues(acc[|acc| - 1], input.name, input.values)
  }

  /** The combinations in enumeration order. */
  function Product(inputs: seq<Input>): seq<Assignment> {
    if inputs == [] then [map[]]
    else Extend(Product(inputs[..|inputs| - 1]), inputs[|inputs| - 1])
  }

  method CartesianProduct(inputs: seq<Input>) returns (acc: seq<Assignment>)
    ensures acc == Product(inputs)
  {
    acc := [map[]];
    for i := 0 to |inputs|
      invariant acc == Product(inputs[..i])
    {
      assert inputs[..i + 1][..i] == inputs[..i];
      var next := [];
      for j := 0 to |acc|
        invariant next == Extend(acc[..j], inputs[i])
      {
        assert acc[..j + 1][..j] == acc[..j];
        var values := inputs[i].values;
        for k := 0 to |values|
          invariant next == Extend(acc[..j], inputs[i]) + WithValues(acc[j], inputs[i].name, values[..k])
        {
          assert values[..k + 1][..k] == values[..k];
          next := next + [acc[j][inputs[i].name := values[k]]];
        }
        assert values[..|values|] == values;
      }
      assert acc[..|acc|] == acc;
      acc := next;
    }
    assert inputs[..|inputs|] == inputs;
  }

  // ---------- the combinations are the assignments ----------

  ghost predicate NamesDistinct(inputs: seq<Input>) {
    forall i, j :: 0 <= i < j < |inputs| ==> inputs[i].name != inputs[j].name
  }

  function Names(inputs: seq<Input>): set<string> {
    set i | 0 <= i < |inputs| :: inputs[i].name
  }

  /** One declared value for each input. */
  ghost predicate IsAssignment(inputs: seq<Input>, m: Assignment) {
    && m.Keys == Names(inputs)
    && forall i :: 0 <= i < |inputs| ==> m[inputs[i].name] in inputs[i].values
  }

  /** `m` is `partial` with a further entry. */
  lemma {:induction false} UpdateUndone(partial: Assignment, name: string, value: string, m: Assignment)
    requires name !in partial
    ensures m == partial[name := value] <==> name in m && m[name] == value && m - {name} == partial
  {
    if name in m && m[name] == value && m - {name} == partial {
      assert forall k :: k in m && k != name ==> k in m - {name};
    }
  }

  lemma {:induction false} WithValuesMember(partial: Assignment, name: string, values: seq<string>, m: Assignment)
    requires name !in partial
    ensures m in WithValues(partial, name, values) <==> name in m && m[name] in values && m - {name} == partial
  {
    if values != [] {
      WithValuesMember(partial, name, values[..|values| - 1], m);
      UpdateUndone(partial, name, values[|values| - 1], m);
    }
  }

  lemma {:induction false} ExtendMember(acc: seq<Assignment>, input: Input, m: Assignment)
    requires forall p :: p in acc ==> input.name !in p
    ensures m in Extend(acc, input)
       <==> input.name in m && m[input.name] in input.values && m - {input.name} in acc
  {
    if acc != [] {
      ExtendMember(acc[..|acc| - 1], input, m);
      WithValuesMember(acc[|acc| - 1], input.name, input.values, m);
    }
  }

  lemma {:induction false} NamesGrow(inputs: seq<Input>)
    requires inputs != []
    ensures Names(inputs) == Names(inputs[..|inputs| - 1]) + {inputs[|inputs| - 1].name}
  {
    var init := inputs[..|inputs| - 1];
    forall n ensures n in Names(inputs) <==> n in Names(init) || n == inputs[|inputs| - 1].name {
      if n in Names(init) {
        var i :| 0 <= i < |init| && init[i].name == n;
        assert inputs[i].name == n;
      }
    }
  }

  lemma {:induction false} LastNameFresh(inputs: seq<Input>)
    requires inputs != [] && NamesDistinct(inputs)
    ensures inputs[|inputs| - 1].name !in Names(inputs[..|inputs| - 1])
    ensures NamesDistinct(inputs[..|inputs| - 1])
  {
  }

  lemma {:induction false} AssignmentShrinks(inputs: seq<Input>, m: Assignment)
    requires inputs != [] && NamesDistinct(inputs) && IsAssignment(inputs, m)
    ensures IsAssignment(inputs[..|inputs| - 1], m - {inputs[|inputs| - 1].name})
  {
    var init, last := inputs[..|inputs| - 1], inputs[|inputs| - 1];
    NamesGrow(inputs);
    LastNameFresh(inputs);
    assert (m - {last.name}).Keys == Names(init);
    forall i | 0 <= i < |init| ensures (m - {last.name})[init[i].name] in init[i].values {
      assert inputs[i] == init[i] && init[i].name in Names(init);
    }
  }

  lemma {:induction false} AssignmentExtends(inputs: seq<Input>, m: Assignment)
    requires inputs != []
    requires var last := inputs[|inputs| - 1];
             last.name in m && m[last.name] in last.values && IsAssignment(inputs[..|inputs| - 1], m - {last.name})
    ensures IsAssignment(inputs, m)
  {
    var init, last := inputs[..|inputs| - 1], inputs[|inputs| - 1];
    NamesGrow(inputs);
    assert m.Keys == (m - {last.name}).Keys + {last.name};
    forall i | 0 <= i < |inputs| ensures m[inputs[i].name] in inputs[i].values {
      if i < |init| {
        assert inputs[i] == init[i] && init[i].name in Names(init);
      }
    }
  }

  lemma {:induction false} AssignmentGrows(inputs: seq<Input>, m: Assignment)
    requires inputs != [] && NamesDistinct(inputs)
    ensures var last := inputs[|inputs| - 1];
            IsAssignment(inputs, m)
            <==> last.name in m && m[last.name] in last.values && IsAssignment(inputs[..|inputs| - 1], m - {last.name})
  {
    var init, last := inputs[..|inputs| - 1], inputs[|inputs| - 1];
    NamesGrow(inputs);
    if IsAssignment(inputs, m) {
      AssignmentShrinks(inputs, m);
    }
    if last.name in m && m[last.name] in last.values && IsAssignment(init, m - {last.name}) {
      AssignmentExtends(inputs, m);
    }
  }

  /** The enumeration lists exactly the assignments. */
  lemma {:induction false} ProductIsAssignments(inputs: seq<Input>, m: Assignment)
    requires NamesDistinct(inputs)
    ensures m in Product(inputs) <==> IsAssignment(inputs, m)
  {
    if inputs == [] {
      assert m.Keys == {} <==> m == map[];
    } else {
      var init, last := inputs[..|inputs| - 1], inputs[|inputs| - 1];
      LastNameFresh(inputs);
      forall p | p in Product(init) ensures last.name !in p {
        ProductIsAssignments(init, p);
      }
      ExtendMember(Product(init), last, m);
      AssignmentGrows(inputs, m);
      ProductIsAssignments(init, m - {last.name});
    }
  }

  // ---------- matching and coverage ----------

  /** A rule asks for the value of an input, or for any value. */
  predicate CellMatches(rule: Rule, name: string, value: string) {
    name in rule.when && (rule.when[name] == value || rule.when[name] == WILDCARD)
  }

  predicate Matches(rule: Rule, m: Assignment) {
    forall name :: name in m ==> CellMatches(rule, name, m[name])
  }

  function MatchedBy(m: Assignment): Rule -> bool { (r: Rule) => Matches(r, m) }

  function MatchesOf(rule: Rule): Assignment -> bool { (m: Assignment) => Matches(rule, m) }

  function MatchCount(rules: seq<Rule>, m: Assignment): nat { CountIf(MatchedBy(m), rules) }

  ghost predicate ExactlyOne(rules: seq<Rule>, m: Assignment) {
    exists i :: 0 <= i < |rules| && Matches(rules[i], m)
                && forall j :: 0 <= j < |rules| && Matches(rules[j], m) ==> j == i
  }

  lemma {:induction false} CountOne<T>(p: T -> bool, s: seq<T>)
    ensures CountIf(p, s) == 1
       <==> exists i :: 0 <= i < |s| && p(s[i]) && forall j :: 0 <= j < |s| && p(s[j]) ==> j == i
  {
    if s != [] {
      var init, n := s[..|s| - 1], |s| - 1;
      CountOne(p, init);
      CountZero(p, init);
      assert forall j :: 0 <= j < n ==> init[j] == s[j];
      if CountIf(p, s) == 1 {
        if p(s[n]) {
          assert forall j :: 0 <= j < |s| && p(s[j]) ==> j == n;
        } else {
          var i :| 0 <= i < |init| && p(init[i]) && forall j :: 0 <= j < |init| && p(init[j]) ==> j == i;
          assert p(s[i]) && forall j :: 0 <= j < |s| && p(s[j]) ==> j == i;
        }
      }
      if i :| 0 <= i < |s| && p(s[i]) && forall j :: 0 <= j < |s| && p(s[j]) ==> j == i {
        if i < n {
          assert p(init[i]) && forall j :: 0 <= j < |init| && p(init[j]) ==> j == i;
        }
      }
    }
  }

  lemma {:induction false} MatchCountOne(rules: seq<Rule>, m: Assignment)
    ensures MatchCount(rules, m) == 1 <==> ExactlyOne(rules, m)
  {
    CountOne(MatchedBy(m), rules);
  }

  /** Every combination of input values matches exactly one rule. */
  ghost predicate Covered(table: Table) {
    forall m :: IsAssignment(table.inputs, m) ==> ExactlyOne(table.rules, m)
  }

  datatype CoverageError = CoverageError(combination: Assignment, matches: nat)

  /** The coverage loop reports the combinations whose number of matching rules is
      not one, so it reports nothing exactly when the table is covered. */
  method ValidateCoverage(table: Table) returns (errors: seq<CoverageError>)
    ensures forall e :: e in errors ==> e.combination in Product(table.inputs)
                                        && e.matches == MatchCount(table.rules, e.combination) != 1
    ensures forall m :: m in Product(table.inputs) && MatchCount(table.rules, m) != 1
                        ==> CoverageError(m, MatchCount(table.rules, m)) in errors
    ensures NamesDistinct(table.inputs) ==> (errors == [] <==> Covered(table))
  {
    var combinations := CartesianProduct(table.inputs);
    errors := [];
    for i := 0 to |combinations|
      invariant forall e :: e in errors ==> e.combination in combinations
                                            && e.matches == MatchCount(table.rules, e.combination) != 1
      invariant forall k :: 0 <= k < i && MatchCount(table.rules, combinations[k]) != 1
                            ==> CoverageError(combinations[k], MatchCount(table.rules, combinations[k])) in errors
    {
      var matches := MatchCount(table.rules, combinations[i]);
      if matches != 1 {
        errors := errors + [CoverageError(combinations[i], matches)];
      }
    }
    if NamesDistinct(table.inputs) {
      CoverageMeaning(table, errors);
    }
  }

  lemma {:induction false} CoverageMeaning(table: Table, errors: seq<CoverageError>)
    requires NamesDistinct(table.inputs)
    requires forall e :: e in errors ==> e.combination in Product(table.inputs)
                                         && e.matches == MatchCount(table.rules, e.combination) != 1
    requires forall m :: m in Product(table.inputs) && MatchCount(table.rules, m) != 1
                         ==> CoverageError(m, MatchCount(table.rules, m)) in errors
    ensures errors == [] <==> Covered(table)
  {
    forall m ensures m in Product(table.inputs) <==> IsAssignment(table.inputs, m)
             ensures MatchCount(table.rules, m) == 1 <==> ExactlyOne(table.rules, m)
    {
      ProductIsAssignments(table.inputs, m);
      MatchCountOne(table.rules, m);
    }
    if errors != [] {
      assert errors[0] in errors;
    }
  }

  // ---------- the shape checks ----------

  /** Non-empty domains without repeated values or repeated names. */
  ghost predicate GoodDomains(inputs: seq<Input>) {
    && inputs != [] && NamesDistinct(inputs)
    && forall i :: 0 <= i < |inputs| ==> inputs[i].values != [] && Distinct(inputs[i].values)
  }

  ghost predicate GoodCell(input: Input, rule: Rule) {
    input.name in rule.when && (rule.when[input.name] == WILDCARD || rule.when[input.name] in input.values)
  }

  ghost predicate GoodCells(inputs: seq<Input>, rule: Rule) {
    forall i :: 0 <= i < |inputs| ==> GoodCell(inputs[i], rule)
  }

  // ---------- the size of a rule ----------

  /** The number of combinations, from the domain sizes. */
  function Combinations(inputs: seq<Input>): nat {
    if inputs == [] then 1
    else Combinations(inputs[..|inputs| - 1]) * |inputs[|inputs| - 1].values|
  }

  function CellSize(input: Input, rule: Rule): nat {
    if input.name in rule.when && rule.when[input.name] == WILDCARD then |input.values| else 1
  }

  /** The number of combinations a rule stands for: one value where it asks for a
      value, the whole domain where it does not. */
  function RuleSize(inputs: seq<Input>, rule: Rule): nat {
    if inputs == [] then 1
    else RuleSize(inputs[..|inputs| - 1], rule) * CellSize(inputs[|inputs| - 1], rule)
  }

  lemma {:induction false} MatchesExtended(rule: Rule, partial: Assignment, name: string, value: string)
    requires name !in partial
    ensures Matches(rule, partial[name := value]) <==> Matches(rule, partial) && CellMatches(rule, name, value)
  {
    var m := partial[name := value];
    assert m[name] == value;
    assert forall n :: n in partial ==> m[n] == partial[n];
  }

  function CellOf(rule: Rule, name: string): string -> bool { (v: string) => CellMatches(rule, name, v) }

  lemma {:induction false} CountWithValues(rule: Rule, partial: Assignment, name: string, values: seq<string>)
    requires name !in partial
    ensures CountIf(MatchesOf(rule), WithValues(partial, name, values))
         == if Matches(rule, partial) then CountIf(CellOf(rule, name), values) else 0
  {
    if values != [] {
      var init, v := values[..|values| - 1], values[|values| - 1];
      CountWithValues(rule, partial, name, init);
      MatchesExtended(rule, partial, name, v);
      CountAppend(MatchesOf(rule), WithValues(partial, name, init), partial[name := v]);
    }
  }

  lemma {:induction false} OneMore(c: nat, k: nat)
    ensures (c + 1) * k == c * k + k
  {
  }

  lemma {:induction false} CountExtend(rule: Rule, acc: seq<Assignment>, input: Input, k: nat)
    requires forall p :: p in acc ==> input.name !in p
    requires k == CountIf(CellOf(rule, input.name), input.values)
    ensures CountIf(MatchesOf(rule), Extend(acc, input)) == CountIf(MatchesOf(rule), acc) * k
  {
    if acc != [] {
      var init, last := acc[..|acc| - 1], acc[|acc| - 1];
      CountExtend(rule, init, input, k);
      CountWithValues(rule, last, input.name, input.values);
      CountConcat(MatchesOf(rule), Extend(init, input), WithValues(last, input.name, input.values));
      OneMore(CountIf(MatchesOf(rule), init), k);
    }
  }

  lemma {:induction false} WithValuesSize(partial: Assignment, name: string, values: seq<string>)
    ensures |WithValues(partial, name, values)| == |values|
  {
    if values != [] {
      WithValuesSize(partial, name, values[..|values| - 1]);
    }
  }

  lemma {:induction false} ExtendSize(acc: seq<Assignment>, input: Input, k: nat)
    requires k == |input.values|
    ensures |Extend(acc, input)| == |acc| * k
  {
    if acc != [] {
      ExtendSize(acc[..|acc| - 1], input, k);
      WithValuesSize(acc[|acc| - 1], input.name, input.values);
      OneMore(|acc| - 1, k);
    }
  }

  /** The enumeration has one entry for each combination. */
  lemma {:induction false} ProductSize(inputs: seq<Input>)
    ensures |Product(inputs)| == Combinations(inputs)
  {
    if inputs != [] {
      ProductSize(inputs[..|inputs| - 1]);
      ExtendSize(Product(inputs[..|inputs| - 1]), inputs[|inputs| - 1], |inputs[|inputs| - 1].values|);
    }
  }

  lemma {:induction false} CountValue(rule: Rule, name: string, values: seq<string>)
    requires name in rule.when && rule.when[name] != WILDCARD && Distinct(values)
    ensures CountIf(CellOf(rule, name), values) == if rule.when[name] in values then 1 else 0
  {
    if values != [] {
      var init, last := values[..|values| - 1], values[|values| - 1];
      CountValue(rule, name, init);
      assert last !in init;
      assert values == init + [last];
    }
  }

  lemma {:induction false} CountCell(rule: Rule, input: Input)
    requires GoodCell(input, rule) && Distinct(input.values)
    ensures CountIf(CellOf(rule, input.name), input.values) == CellSize(input, rule)
  {
    if rule.when[input.name] == WILDCARD {
      CountZero(CellOf(rule, input.name), input.values);
    } else {
      CountValue(rule, input.name, input.values);
    }
  }

  /** A rule matches as many combinations as its size says. */
  lemma {:induction false} RuleSizeCounts(inputs: seq<Input>, rule: Rule)
    requires NamesDistinct(inputs) && GoodCells(inputs, rule)
    requires forall i :: 0 <= i < |inputs| ==> Distinct(inputs[i].values)
    ensures CountIf(MatchesOf(rule), Product(inputs)) == RuleSize(inputs, rule)
  {
    if inputs == [] {
      assert Product(inputs) == [] + [map[]];
      CountAppend(MatchesOf(rule), [], map[]);
    } else {
      var init, last := inputs[..|inputs| - 1], inputs[|inputs| - 1];
      LastNameFresh(inputs);
      RuleSizeCounts(init, rule);
      forall p | p in Product(init) ensures last.name !in p {
        ProductIsAssignments(init, p);
      }
      CountCell(rule, last);
      CountExtend(rule, Product(init), last, CellSize(last, rule));
    }
  }

  // ---------- counting the matches twice ----------

  function SizeIn(inputs: seq<Input>): Rule -> int { (r: Rule) => RuleSize(inputs, r) }

  function MatchesIn(combos: seq<Assignment>): Rule -> int { (r: Rule) => CountIf(MatchesOf(r), combos) }

  function CountIn(rules: seq<Rule>): Assignment -> int { (m: Assignment) => MatchCount(rules, m) }

  /** A rule more adds its own matches. */
  lemma {:induction false} OneMoreRule(rules: seq<Rule>, r: Rule, combos: seq<Assignment>)
    ensures SumBy(CountIn(rules + [r]), combos) == SumBy(CountIn(rules), combos) + CountIf(MatchesOf(r), combos)
  {
    if combos != [] {
      OneMoreRule(rules, r, combos[..|combos| - 1]);
      CountAppend(MatchedBy(combos[|combos| - 1]), rules, r);
    }
  }

  /** Counting matches rule by rule or combination by combination gives the same. */
  lemma {:induction false} CountTwice(rules: seq<Rule>, combos: seq<Assignment>)
    ensures SumBy(MatchesIn(combos), rules) == SumBy(CountIn(rules), combos)
  {
    if rules == [] {
      NoRulesNoMatches(combos);
    } else {
      var init := rules[..|rules| - 1];
      CountTwice(init, combos);
      OneMoreRule(init, rules[|rules| - 1], combos);
      assert rules == init + [rules[|rules| - 1]];
    }
  }

  lemma {:induction false} NoRulesNoMatches(combos: seq<Assignment>)
    ensures SumBy(CountIn([]), combos) == 0
  {
    if combos != [] {
      NoRulesNoMatches(combos[..|combos| - 1]);
    }
  }

  lemma {:induction false} SumOfOnes<T>(f: T -> int, s: seq<T>)
    requires forall i :: 0 <= i < |s| ==> f(s[i]) <= 1
    ensures SumBy(f, s) <= |s|
    ensures SumBy(f, s) == |s| <==> forall i :: 0 <= i < |s| ==> f(s[i]) == 1
  {
    if s != [] {
      var init := s[..|s| - 1];
      SumOfOnes(f, init);
      assert forall i :: 0 <= i < |init| ==> init[i] == s[i];
    }
  }

  // ---------- rules that exclude one another ----------

  /** Some input where the two rules ask for different values. */
  ghost predicate Separated(inputs: seq<Input>, r: Rule, s: Rule) {
    exists i :: 0 <= i < |inputs| && SeparatedAt(inputs[i].name, r, s)
  }

  predicate SeparatedAt(name: string, r: Rule, s: Rule) {
    && name in r.when && name in s.when
    && r.when[name] != WILDCARD && s.when[name] != WILDCARD && r.when[name] != s.when[name]
  }

  /** A value that both rules accept at an input that does not separate them. */
  ghost function CommonValue(input: Input, r: Rule, s: Rule): string
    requires GoodCell(input, r) && GoodCell(input, s) && input.values != []
  {
    if r.when[input.name] != WILDCARD then r.when[input.name]
    else if s.when[input.name] != WILDCARD then s.when[input.name]
    else input.values[0]
  }

  ghost function Common(inputs: seq<Input>, r: Rule, s: Rule): Assignment
    requires GoodCells(inputs, r) && GoodCells(inputs, s)
    requires forall i :: 0 <= i < |inputs| ==> inputs[i].values != []
  {
    if inputs == [] then map[]
    else Common(inputs[..|inputs| - 1], r, s)[inputs[|inputs| - 1].name := CommonValue(inputs[|inputs| - 1], r, s)]
  }

  lemma {:induction false} CommonMatches(inputs: seq<Input>, r: Rule, s: Rule)
    requires NamesDistinct(inputs) && GoodCells(inputs, r) && GoodCells(inputs, s)
    requires forall i :: 0 <= i < |inputs| ==> inputs[i].values != []
    requires !Separated(inputs, r, s)
    ensures IsAssignment(inputs, Common(inputs, r, s))
    ensures Matches(r, Common(inputs, r, s)) && Matches(s, Common(inputs, r, s))
  {
    if inputs != [] {
      var init, last := inputs[..|inputs| - 1], inputs[|inputs| - 1];
      LastNameFresh(inputs);
      assert !Separated(init, r, s) by {
        assert forall i :: 0 <= i < |init| ==> init[i] == inputs[i];
      }
      assert !SeparatedAt(inputs[|inputs| - 1].name, r, s);
      CommonMatches(init, r, s);
      var p, v := Common(init, r, s), CommonValue(last, r, s);
      MatchesExtended(r, p, last.name, v);
      MatchesExtended(s, p, last.name, v);
      UpdateUndone(p, last.name, v, p[last.name := v]);
      AssignmentGrows(inputs, p[last.name := v]);
    }
  }

  /** Two rules have no combination in common exactly when an input separates them. */
  lemma {:induction false} OverlapMeaning(inputs: seq<Input>, r: Rule, s: Rule)
    requires GoodDomains(inputs) && GoodCells(inputs, r) && GoodCells(inputs, s)
    ensures Separated(inputs, r, s) <==> !exists m :: IsAssignment(inputs, m) && Matches(r, m) && Matches(s, m)
  {
    if !Separated(inputs, r, s) {
      CommonMatches(inputs, r, s);
    } else {
      var i :| 0 <= i < |inputs| && SeparatedAt(inputs[i].name, r, s);
      forall m | IsAssignment(inputs, m) ensures !(Matches(r, m) && Matches(s, m)) {
        assert inputs[i].name in m;
      }
    }
  }

  ghost predicate Exclusive(table: Table) {
    forall i, j :: 0 <= i < j < |table.rules| ==> Separated(table.inputs, table.rules[i], table.rules[j])
  }

  ghost predicate Shaped(table: Table) {
    GoodDomains(table.inputs) && forall i :: 0 <= i < |table.rules| ==> GoodCells(table.inputs, table.rules[i])
  }

  /** The rule sizes add up to the matches over all combinations. */
  lemma {:induction false} SizesAreMatches(table: Table)
    requires Shaped(table)
    ensures SumBy(SizeIn(table.inputs), table.rules) == SumBy(CountIn(table.rules), Product(table.inputs))
  {
    var combos := Product(table.inputs);
    forall i | 0 <= i < |table.rules|
      ensures SizeIn(table.inputs)(table.rules[i]) == MatchesIn(combos)(table.rules[i])
    {
      RuleSizeCounts(table.inputs, table.rules[i]);
    }
    SumEqual(SizeIn(table.inputs), MatchesIn(combos), table.rules);
    CountTwice(table.rules, combos);
  }

  lemma {:induction false} CoveredIsExclusive(table: Table)
    requires Shaped(table) && Covered(table)
    ensures Exclusive(table)
  {
    forall i, j | 0 <= i < j < |table.rules| ensures Separated(table.inputs, table.rules[i], table.rules[j]) {
      OverlapMeaning(table.inputs, table.rules[i], table.rules[j]);
    }
  }

  lemma {:induction false} CoveredCounts(table: Table)
    requires Shaped(table) && Covered(table)
    ensures forall k :: 0 <= k < |Product(table.inputs)| ==> CountIn(table.rules)(Product(table.inputs)[k]) == 1
  {
    forall k | 0 <= k < |Product(table.inputs)| ensures CountIn(table.rules)(Product(table.inputs)[k]) == 1 {
      ProductIsAssignments(table.inputs, Product(table.inputs)[k]);
      MatchCountOne(table.rules, Product(table.inputs)[k]);
    }
  }

  lemma {:induction false} ExclusiveCounts(table: Table)
    requires Shaped(table) && Exclusive(table)
    ensures forall k :: 0 <= k < |Product(table.inputs)| ==> CountIn(table.rules)(Product(table.inputs)[k]) <= 1
  {
    forall k | 0 <= k < |Product(table.inputs)| ensures CountIn(table.rules)(Product(table.inputs)[k]) <= 1 {
      var m := Product(table.inputs)[k];
      ProductIsAssignments(table.inputs, m);
      forall i, j | 0 <= i < j < |table.rules| ensures !(Matches(table.rules[i], m) && Matches(table.rules[j], m)) {
        OverlapMeaning(table.inputs, table.rules[i], table.rules[j]);
      }
      CountAtMostOne(MatchedBy(m), table.rules);
    }
  }

  lemma {:induction false} OnesCover(table: Table)
    requires NamesDistinct(table.inputs)
    requires forall k :: 0 <= k < |Product(table.inputs)| ==> CountIn(table.rules)(Product(table.inputs)[k]) == 1
    ensures Covered(table)
  {
    forall m | IsAssignment(table.inputs, m) ensures ExactlyOne(table.rules, m) {
      ProductIsAssignments(table.inputs, m);
      var k :| 0 <= k < |Product(table.inputs)| && Product(table.inputs)[k] == m;
      assert CountIn(table.rules)(Product(table.inputs)[k]) == 1;
      MatchCountOne(table.rules, m);
    }
  }

  /** A shaped table is covered exactly when its rules exclude one another and
      their sizes sum to the number of combinations. */
  lemma {:induction false} CoverageBySizes(table: Table)
    requires Shaped(table)
    ensures Covered(table)
       <==> Exclusive(table) && SumBy(SizeIn(table.inputs), table.rules) == Combinations(table.inputs)
  {
    hide Covered, Exclusive;
    SizesAreMatches(table);
    ProductSize(table.inputs);
    if Covered(table) {
      CoveredIsExclusive(table);
      CoveredCounts(table);
      SumOfOnes(CountIn(table.rules), Product(table.inputs));
    } else if Exclusive(table) {
      ExclusiveCounts(table);
      SumOfOnes(CountIn(table.rules), Product(table.inputs));
      if SumBy(CountIn(table.rules), Product(table.inputs)) == |Product(table.inputs)| {
        OnesCover(table);
      }
    }
  }

  // ---------- the whole check ----------

  /** Members every plain object inherits; a lookup of one of these never comes back empty. */
  const INHERITED := {
    "constructor", "toString", "valueOf", "hasOwnProperty", "isPrototypeOf", "propertyIsEnumerable",
    "toLocaleString", "__proto__", "__defineGetter__", "__defineSetter__", "__lookupGetter__", "__lookupSetter__"
  }

  datatype TableError =
    | NoEntries
    | NoValues(index: nat)
    | RepeatedValues(index: nat)
    | RepeatedNames
    | NoRules
    | BadCell(rule: nat, name: string)
    | UndeclaredInput(rule: nat)
    | BadOutcome(rule: nat, name: string)
    | UndeclaredOutput(rule: nat)
    | RepeatedIds
    | Uncovered(error: CoverageError)

  ghost predicate GoodWhen(inputs: seq<Input>, rule: Rule) {
    GoodCells(inputs, rule) && rule.when.Keys <= Names(inputs)
  }

  /** A declared value for every output, and no other key that the check can see. */
  ghost predicate GoodOutcome(outputs: seq<Input>, rule: Rule) {
    && (forall i :: 0 <= i < |outputs| ==>
          outputs[i].name in rule.outcome && rule.outcome[outputs[i].name] in outputs[i].values)
    && rule.outcome.Keys <= Names(outputs) + INHERITED
  }

  ghost predicate IdsDistinct(rules: seq<Rule>) {
    forall i, j :: 0 <= i < j < |rules| ==> rules[i].id != rules[j].id
  }

  ghost predicate GoodRules(table: Table) {
    && table.rules != [] && IdsDistinct(table.rules)
    && forall i :: 0 <= i < |table.rules| ==>
         GoodWhen(table.inputs, table.rules[i]) && GoodOutcome(table.outputs, table.rules[i])
  }

  ghost predicate Accepted(table: Table) {
    GoodDomains(table.inputs) && GoodDomains(table.outputs) && GoodRules(table) && Covered(table)
  }

  /** One rule that always decides `y`, with one key more in its outcome. */
  function OneRule(key: string, value: string): Table {
    Table([Input("x", ["a"])], [Input("y", ["b"])],
          [Rule("r", map["x" := WILDCARD], map["y" := "b"][key := value])])
  }

  /** An outcome key that no output declares is accepted exactly when every object
      inherits a property of that name. */
  lemma {:induction false} UndeclaredOutcomeKey(key: string, value: string)
    requires key != "y"
    ensures Accepted(OneRule(key, value)) <==> key in INHERITED
  {
    var table := OneRule(key, value);
    var rule := table.rules[0];
    assert rule.outcome.Keys == {"y", key} && rule.outcome["y"] == "b";
    assert table.outputs[0].name == "y" && Names(table.outputs) == {"y"};
    assert table.inputs[0].name == "x" && Names(table.inputs) == {"x"};
    forall m | IsAssignment(table.inputs, m) ensures ExactlyOne(table.rules, m) {
      assert Matches(rule, m);
    }
    assert GoodOutcome(table.outputs, rule) <==> key in INHERITED;
  }

  method ValidateNamedValues(entries: seq<Input>) returns (errors: seq<TableError>)
    ensures errors == [] <==> GoodDomains(entries)
  {
    if |entries| == 0 {
      return [NoEntries];
    }
    errors := [];
    var names := [];
    for i := 0 to |entries|
      invariant |names| == i && forall k :: 0 <= k < i ==> names[k] == entries[k].name
      invariant errors == [] <==> forall k :: 0 <= k < i ==> entries[k].values != [] && Distinct(entries[k].values)
    {
      UniqueMeaning(entries[i].values);
      if |entries[i].values| == 0 {
        errors := errors + [NoValues(i)];
      }
      names := names + [entries[i].name];
      if !Unique(entries[i].values) {
        errors := errors + [RepeatedValues(i)];
      }
    }
    UniqueMeaning(names);
    assert Distinct(names) <==> NamesDistinct(entries);
    if !Unique(names) {
      errors := errors + [RepeatedNames];
    }
  }

  method ValidateWhen(inputs: seq<Input>, rule: Rule, index: nat) returns (errors: seq<TableError>)
    ensures errors == [] <==> GoodWhen(inputs, rule)
  {
    errors := [];
    for i := 0 to |inputs|
      invariant errors == [] <==> forall k :: 0 <= k < i ==> GoodCell(inputs[k], rule)
    {
      var name := inputs[i].name;
      if name !in rule.when {
        errors := errors + [BadCell(index, name)];
      } else if rule.when[name] != WILDCARD && rule.when[name] !in inputs[i].values {
        errors := errors + [BadCell(index, name)];
      }
    }
    if exists key :: key in rule.when.Keys && key !in Names(inputs) {
      errors := errors + [UndeclaredInput(index)];
    }
  }

  method ValidateOutcome(outputs: seq<Input>, rule: Rule, index: nat) returns (errors: seq<TableError>)
    ensures errors == [] <==> GoodOutcome(outputs, rule)
  {
    errors := [];
    for i := 0 to |outputs|
      invariant errors == [] <==> forall k :: 0 <= k < i ==>
                  outputs[k].name in rule.outcome && rule.outcome[outputs[k].name] in outputs[k].values
    {
      var name := outputs[i].name;
      if name !in rule.outcome {
        errors := errors + [BadOutcome(index, name)];
      } else if rule.outcome[name] !in outputs[i].values {
        errors := errors + [BadOutcome(index, name)];
      }
    }
    if exists key :: key in rule.outcome.Keys && key !in Names(outputs) + INHERITED {
      errors := errors + [UndeclaredOutput(index)];
    }
  }

  method ValidateRuleShape(table: Table) returns (errors: seq<TableError>)
    ensures errors == [] <==> GoodRules(table)
  {
    if |table.rules| == 0 {
      return [NoRules];
    }
    errors := [];
    var ruleIds := [];
    for i := 0 to |table.rules|
      invariant |ruleIds| == i && forall k :: 0 <= k < i ==> ruleIds[k] == table.rules[k].id
      invariant errors == [] <==> forall k :: 0 <= k < i ==>
                  GoodWhen(table.inputs, table.rules[k]) && GoodOutcome(table.outputs, table.rules[k])
    {
      ruleIds := ruleIds + [table.rules[i].id];
      var whenErrors := ValidateWhen(table.inputs, table.rules[i], i);
      var outcomeErrors := ValidateOutcome(table.outputs, table.rules[i], i);
      errors := errors + whenErrors + outcomeErrors;
    }
    UniqueMeaning(ruleIds);
    assert Distinct(ruleIds) <==> IdsDistinct(table.rules);
    if !Unique(ruleIds) {
      errors := errors + [RepeatedIds];
    }
  }

  /** The check of one table: no error exactly when the table is accepted. */
  method ValidateDecisionTable(table: Table) returns (errors: seq<TableError>)
    ensures errors == [] <==> Accepted(table)
  {
    var inputErrors := ValidateNamedValues(table.inputs);
    var outputErrors := ValidateNamedValues(table.outputs);
    var ruleErrors := ValidateRuleShape(table);
    var coverage := ValidateCoverage(table);
    var uncovered := seq(|coverage|, i requires 0 <= i < |coverage| => Uncovered(coverage[i]));
    errors := inputErrors + outputErrors + ruleErrors + uncovered;
  }

  // ---------- an accepted table is a function ----------

  /** The rule that decides an assignment. */
  ghost predicate Decides(table: Table, m: Assignment, rule: Rule) {
    rule in table.rules && Matches(rule, m)
  }

  /** An accepted table maps every assignment to one outcome. */
  lemma {:induction false} AcceptedIsFunction(table: Table, m: Assignment)
    requires Accepted(table) && IsAssignment(table.inputs, m)
    ensures exists rule :: Decides(table, m, rule)
    ensures forall r, s :: Decides(table, m, r) && Decides(table, m, s) ==> r == s
    ensures forall r, i :: Decides(table, m, r) && 0 <= i < |table.outputs| ==>
              table.outputs[i].name in r.outcome && r.outcome[table.outputs[i].name] in table.outputs[i].values
  {
    var i :| 0 <= i < |table.rules| && Matches(table.rules[i], m)
             && forall j :: 0 <= j < |table.rules| && Matches(table.rules[j], m) ==> j == i;
    assert Decides(table, m, table.rules[i]);
    forall r | Decides(table, m, r) ensures r == table.rules[i] {
      var j :| 0 <= j < |table.rules| && table.rules[j] == r;
    }
  }

  function HasId(id: string): Rule -> bool { (r: Rule) => r.id == id }

  lemma {:induction false} IdsReordered(rules: seq<Rule>, rules': seq<Rule>)
    requires multiset(rules) == multiset(rules') && IdsDistinct(rules)
    ensures IdsDistinct(rules')
  {
    forall i, j | 0 <= i < j < |rules'| ensures rules'[i].id != rules'[j].id {
      var p := HasId(rules'[i].id);
      CountReordered(p, rules, rules');
      CountAtMostOne(p, rules);
      CountAtMostOne(p, rules');
      assert p(rules'[i]);
    }
  }

  /** Reordering the rules keeps a table accepted and every decision the same. */
  lemma {:induction false} RuleOrderIrrelevant(table: Table, rules': seq<Rule>)
    requires Accepted(table) && multiset(rules') == multiset(table.rules)
    ensures Accepted(table.(rules := rules'))
    ensures forall m, r :: Decides(table, m, r) <==> Decides(table.(rules := rules'), m, r)
  {
    var table' := table.(rules := rules');
    forall r ensures r in rules' <==> r in table.rules {
      assert r in multiset(rules') <==> r in multiset(table.rules);
    }
    assert |multiset(rules')| == |rules'| && |multiset(table.rules)| == |table.rules|;
    IdsReordered(table.rules, rules');
    forall m | IsAssignment(table.inputs, m) ensures ExactlyOne(rules', m) {
      MatchCountOne(table.rules, m);
      CountReordered(MatchedBy(m), table.rules, rules');
      MatchCountOne(rules', m);
    }
    forall i | 0 <= i < |rules'| ensures GoodWhen(table.inputs, rules'[i]) && GoodOutcome(table.outputs, rules'[i]) {
      assert rules'[i] in table.rules;
    }
  }

  /** In an accepted table no two rules overlap and the rule sizes sum to the
      number of combinations. */
  lemma {:induction false} AcceptedSizes(table: Table)
    requires Accepted(table)
    ensures Exclusive(table)
    ensures SumBy(SizeIn(table.inputs), table.rules) == Combinations(table.inputs)
  {
    CoverageBySizes(table);
  }
}
