/** The check of `dead` claims: every reference to a claimed name in the source files
    is tallied, and a claim is refuted by a reference to its path, or by an escape of
    a prefix together with a use of its leaf.

    Files whose text holds none of the names in question are skipped unparsed; the
    main theorem is that skipping them changes no tally. */
module DeadClaims {
  import opened Lists
  import opened Text

  datatype Ast =
    | Identifier(name: string)
    | Literal(text: string, isString: bool)
    | Member(target: Ast, property: Ast, computed: bool)
    | Property(key: Ast, value: Ast, computed: bool)
    | Declarator(id: Ast, init: seq<Ast>)
    | Pattern(properties: seq<Ast>)
    | Specifier(parts: seq<Ast>)
    | Other(children: seq<Ast>)

  /** Where a node stands below its parent. */
  datatype Place = MemberObject | MemberProperty | PropertyKey | PatternItem | DeclaratorId | SpecifierPart | Elsewhere

  // ---------- the names a node reads ----------

  function NonEmpty(name: Option<string>): Option<string> { if name == Some("") then None else name }

  /** The dotted name of an identifier or of a chain of static members. */
  function TargetName(node: Ast): Option<string> {
    match node
    case Identifier(name) => Some(name)
    case Member(target, property, computed) =>
      var objectName := NonEmpty(TargetName(target));
      var propertyName := NonEmpty(
        if computed then (if property.Literal? then Some(property.text) else None) else TargetName(property));
      if objectName.None? || propertyName.None? then None
      else Some(objectName.value + "." + propertyName.value)
    case _ => None
  }

  /** The part of a member chain that reads through static names. */
  function StaticChainPrefix(node: Ast): Option<string> {
    if node.Member? && TargetName(node).None? then StaticChainPrefix(node.target) else TargetName(node)
  }

  method ReadStaticChainPrefix(node: Ast) returns (name: Option<string>)
    ensures name == StaticChainPrefix(node)
  {
    var current := node;
    while current.Member? && TargetName(current).None?
      invariant StaticChainPrefix(current) == StaticChainPrefix(node)
      decreases current
    {
      current := current.target;
    }
    name := TargetName(current);
  }

  /** The name path a node reads, if it is a read. */
  function ReferencePath(node: Ast, place: Place): Option<string> {
    if node.Member? then (if place == MemberObject then None else StaticChainPrefix(node))
    else if node.Identifier? && place !in {MemberObject, MemberProperty, PropertyKey, DeclaratorId, SpecifierPart} then
      Some(node.name)
    else None
  }

  function KeyName(property: Ast): Option<string>
    requires property.Property?
  {
    if property.computed then None
    else if property.key.Identifier? then Some(property.key.name)
    else if property.key.Literal? && property.key.isString then Some(property.key.text)
    else None
  }

  /** The leaf name a node uses. */
  function LeafReference(node: Ast, place: Place): Option<string> {
    if node.Literal? then (if node.isString then Some(node.text) else None)
    else if node.Member? && !node.computed then TargetName(node.property)
    else if node.Property? && place == PatternItem then KeyName(node)
    else None
  }

  datatype Visit = Visit(path: Option<string>, leaf: Option<string>)

  /** The visits of the walk over a syntax tree. */
  function Walk(node: Ast, place: Place): seq<Visit>
    decreases node, 1, 0
  {
    [Visit(ReferencePath(node, place), LeafReference(node, place))] +
    match node
    case Member(target, property, _) => Walk(target, MemberObject) + Walk(property, MemberProperty)
    case Property(key, value, _) => Walk(key, PropertyKey) + Walk(value, Elsewhere)
    case Declarator(id, _) => Walk(id, DeclaratorId) + WalkList(node, Elsewhere, |node.init|)
    case Pattern(_) => WalkList(node, PatternItem, |node.properties|)
    case Specifier(_) => WalkList(node, SpecifierPart, |node.parts|)
    case Other(_) => WalkList(node, Elsewhere, |node.children|)
    case _ => []
  }

  function Items(node: Ast): seq<Ast> {
    match node
    case Declarator(_, init) => init
    case Pattern(properties) => properties
    case Specifier(parts) => parts
    case Other(children) => children
    case _ => []
  }

  function WalkList(node: Ast, place: Place, n: nat): seq<Visit>
    requires n <= |Items(node)|
    decreases node, 0, n
  {
    if n == 0 then [] else WalkList(node, place, n - 1) + Walk(Items(node)[n - 1], place)
  }

  // ---------- one chain, one reference ----------

  /** The path references on the spine of a member chain. */
  function SpineReferences(node: Ast, place: Place): nat {
    (if ReferencePath(node, place).Some? then 1 else 0)
    + if node.Member? then SpineReferences(node.target, MemberObject) else 0
  }

  lemma {:induction false} InnerSpineSilent(node: Ast)
    ensures SpineReferences(node, MemberObject) == 0
  {
    if node.Member? {
      InnerSpineSilent(node.target);
    }
  }

  predicate HasPath(v: Visit) { v.path.Some? }

  /** The visits of a walk beside the spine of a member chain. */
  function BesideSpine(node: Ast): seq<Visit> {
    if node.Member? then BesideSpine(node.target) + Walk(node.property, MemberProperty)
    else Walk(node, Elsewhere)[1..]
  }

  lemma {:induction false} SpineInWalk(node: Ast, place: Place)
    ensures CountIf(HasPath, Walk(node, place)) == SpineReferences(node, place) + CountIf(HasPath, BesideSpine(node))
  {
    var top := Visit(ReferencePath(node, place), LeafReference(node, place));
    CountAppend(HasPath, [], top);
    assert [] + [top] == [top];
    if node.Member? {
      var inner, side := Walk(node.target, MemberObject), Walk(node.property, MemberProperty);
      SpineInWalk(node.target, MemberObject);
      CountConcat(HasPath, [top], inner + side);
      CountConcat(HasPath, inner, side);
      CountConcat(HasPath, BesideSpine(node.target), side);
    } else {
      CountConcat(HasPath, [top], BesideSpine(node));
      assert Walk(node, place) == [top] + BesideSpine(node);
    }
  }

  /** A member chain counts once if it is outermost and has a static part, and otherwise
      not at all: of the path references of its walk at most one does not lie beside its
      spine. */
  lemma {:induction false} ChainCountsOnce(node: Ast, place: Place)
    ensures SpineReferences(node, place) <= 1
    ensures node.Member? ==>
              (SpineReferences(node, place) == 1
               <==> place != MemberObject && exists names :: LongestNames(node, names))
    ensures CountIf(HasPath, BesideSpine(node)) <= CountIf(HasPath, Walk(node, place))
         <= CountIf(HasPath, BesideSpine(node)) + 1
  {
    hide LongestNames;
    SpineInWalk(node, place);
    if node.Member? {
      InnerSpineSilent(node.target);
      if StaticChainPrefix(node).Some? {
        ChainPrefixMeaning(node, StaticChainPrefix(node).value);
      }
      forall names | LongestNames(node, names) ensures StaticChainPrefix(node).Some? {
        ChainPrefixMeaning(node, Join(names, '.'));
      }
    }
  }

  // ---------- the names along a chain ----------

  /** The names along an identifier or a chain of static members, in order. */
  function StaticNames(node: Ast): Option<seq<string>> {
    match node
    case Identifier(name) => Some([name])
    case Member(target, property, computed) =>
      var first := StaticNames(target);
      var last :=
        if !computed then StaticNames(property) else if property.Literal? then Some([property.text]) else None;
      if first.None? || last.None? || first.value == [""] || last.value == [""] then None
      else Some(first.value + last.value)
    case _ => None
  }

  lemma {:induction false} JoinEmpty(names: seq<string>)
    requires names != []
    ensures Join(names, '.') == "" <==> names == [""]
  {
  }

  /** The dotted name joins them. */
  lemma {:induction false} TargetNameMeaning(node: Ast)
    ensures StaticNames(node).Some? ==> StaticNames(node).value != []
    ensures TargetName(node)
         == match StaticNames(node) case None => None case Some(names) => Some(Join(names, '.'))
  {
    if node.Member? {
      TargetNameMeaning(node.target);
      TargetNameMeaning(node.property);
      var first, last := StaticNames(node.target), StaticNames(node.property);
      if first.Some? {
        JoinEmpty(first.value);
        if last.Some? {
          JoinEmpty(last.value);
          JoinConcat(first.value, last.value);
        }
        if node.computed && node.property.Literal? {
          JoinEmpty([node.property.text]);
          JoinConcat(first.value, [node.property.text]);
        }
      }
    }
  }

  /** What is left of a chain without its last `depth` members. */
  function Spine(node: Ast, depth: nat): Ast {
    if depth == 0 || !node.Member? then node else Spine(node.target, depth - 1)
  }

  /** The names of the longest part of a chain, from its start, that is static. */
  ghost predicate LongestNames(node: Ast, names: seq<string>) {
    exists depth: nat :: EndsStatic(node, depth, names)
  }

  ghost predicate EndsStatic(node: Ast, depth: nat, names: seq<string>) {
    && StaticNames(Spine(node, depth)) == Some(names)
    && forall d: nat :: d < depth ==> StaticNames(Spine(node, d)).None?
  }

  lemma {:induction false} LongestNamesStep(node: Ast, names: seq<string>)
    requires node.Member? && StaticNames(node).None?
    ensures LongestNames(node, names) <==> LongestNames(node.target, names)
  {
    if depth: nat :| EndsStatic(node, depth, names) {
      assert depth > 0;
      forall d: nat | d < depth - 1 ensures StaticNames(Spine(node.target, d)).None? {
        assert Spine(node, d + 1) == Spine(node.target, d);
      }
      assert EndsStatic(node.target, depth - 1, names);
    }
    if depth: nat :| EndsStatic(node.target, depth, names) {
      forall d: nat | d < depth + 1 ensures StaticNames(Spine(node, d)).None? {
        if d > 0 {
          assert Spine(node, d) == Spine(node.target, d - 1);
        }
      }
      assert Spine(node, depth + 1) == Spine(node.target, depth);
      assert EndsStatic(node, depth + 1, names);
    }
  }

  lemma {:induction false} LongestNamesStatic(node: Ast, names: seq<string>)
    requires StaticNames(node).Some? || !node.Member?
    ensures LongestNames(node, names) <==> StaticNames(node) == Some(names)
  {
    if depth: nat :| EndsStatic(node, depth, names) {
      assert Spine(node, 0) == node;
      if node.Member? {
        assert depth == 0;
      }
    }
    if StaticNames(node) == Some(names) {
      assert EndsStatic(node, 0, names);
    }
  }

  /** A chain reads through its longest static part, whose name it goes by. */
  lemma {:induction false} ChainPrefixMeaning(node: Ast, name: string)
    ensures StaticChainPrefix(node) == Some(name)
       <==> exists names :: LongestNames(node, names) && Join(names, '.') == name
  {
    hide LongestNames;
    TargetNameMeaning(node);
    if node.Member? && TargetName(node).None? {
      ChainPrefixMeaning(node.target, name);
      forall names ensures LongestNames(node, names) <==> LongestNames(node.target, names) {
        LongestNamesStep(node, names);
      }
    } else {
      forall names ensures LongestNames(node, names) <==> StaticNames(node) == Some(names) {
        LongestNamesStatic(node, names);
      }
      if StaticNames(node).Some? {
        assert LongestNames(node, StaticNames(node).value);
      }
    }
  }

  // ---------- tallies ----------

  datatype Claim = Claim(path: string, leaf: string, prefixes: set<string>)

  datatype Tally = Tally(claim: Claim, pathReferences: nat, leafReferences: nat, escaped: bool)

  function Segments(name: string): seq<string> { Split(name, '.') }

  /** The proper prefixes of a dotted name. */
  function Prefixes(segments: seq<string>): set<string> {
    set k | 1 <= k < |segments| :: Join(segments[..k], '.')
  }

  function ClaimOf(name: string): Claim {
    var segments := Segments(name);
    Claim(name, segments[|segments| - 1], Prefixes(segments))
  }

  function CreateTally(name: string): Tally { Tally(ClaimOf(name), 0, 0, false) }

  predicate StartsWith(s: string, a: string) { |a| <= |s| && s[..|a|] == a }

  predicate PathHit(c: Claim, path: Option<string>) {
    path.Some? && (path.value == c.path || StartsWith(path.value, c.path + "."))
  }

  predicate Escapes(c: Claim, path: Option<string>) { !PathHit(c, path) && path.Some? && path.value in c.prefixes }

  predicate LeafHit(c: Claim, leaf: Option<string>) { leaf == Some(c.leaf) }

  function TallyVisit(t: Tally, v: Visit): Tally {
    Tally(
      t.claim,
      t.pathReferences + if PathHit(t.claim, v.path) then 1 else 0,
      t.leafReferences + if LeafHit(t.claim, v.leaf) then 1 else 0,
      t.escaped || Escapes(t.claim, v.path))
  }

  function TallyVisits(t: Tally, visits: seq<Visit>): Tally {
    if visits == [] then t else TallyVisit(TallyVisits(t, visits[..|visits| - 1]), visits[|visits| - 1])
  }

  predicate Refuted(t: Tally) { t.pathReferences > 0 || (t.escaped && t.leafReferences > 0) }

  datatype File = File(source: string, ast: Ast)

  function Visits(file: File): seq<Visit> { Walk(file.ast, Elsewhere) }

  /** The tally over all files, none skipped. */
  function TallyFiles(t: Tally, files: seq<File>): Tally {
    if files == [] then t else TallyVisits(TallyFiles(t, files[..|files| - 1]), Visits(files[|files| - 1]))
  }

  // ---------- tallies add up ----------

  function HitsPath(c: Claim): Visit -> bool { (v: Visit) => PathHit(c, v.path) }

  function HitsLeaf(c: Claim): Visit -> bool { (v: Visit) => LeafHit(c, v.leaf) }

  function LetsEscape(c: Claim): Visit -> bool { (v: Visit) => Escapes(c, v.path) }

  /** A tally is the number of hits of each kind. */
  lemma {:induction false} TallyCounts(t: Tally, visits: seq<Visit>)
    ensures var u := TallyVisits(t, visits);
            && u.claim == t.claim
            && u.pathReferences == t.pathReferences + CountIf(HitsPath(t.claim), visits)
            && u.leafReferences == t.leafReferences + CountIf(HitsLeaf(t.claim), visits)
            && (u.escaped <==> t.escaped || CountIf(LetsEscape(t.claim), visits) > 0)
  {
    if visits != [] {
      TallyCounts(t, visits[..|visits| - 1]);
    }
  }

  function AllVisits(files: seq<File>): seq<Visit> {
    if files == [] then [] else AllVisits(files[..|files| - 1]) + Visits(files[|files| - 1])
  }

  lemma {:induction false} TallyConcat(t: Tally, a: seq<Visit>, b: seq<Visit>)
    ensures TallyVisits(t, a + b) == TallyVisits(TallyVisits(t, a), b)
  {
    if b == [] {
      assert a + b == a;
    } else {
      TallyConcat(t, a, b[..|b| - 1]);
      assert (a + b)[..|a + b| - 1] == a + b[..|b| - 1];
    }
  }

  lemma {:induction false} TallyOfAll(t: Tally, files: seq<File>)
    ensures TallyFiles(t, files) == TallyVisits(t, AllVisits(files))
  {
    if files != [] {
      TallyOfAll(t, files[..|files| - 1]);
      TallyConcat(t, AllVisits(files[..|files| - 1]), Visits(files[|files| - 1]));
    }
  }

  function HitsIn(p: Visit -> bool): File -> int { (file: File) => CountIf(p, Visits(file)) }

  lemma {:induction false} CountOfAll(p: Visit -> bool, files: seq<File>)
    ensures CountIf(p, AllVisits(files)) == SumBy(HitsIn(p), files)
  {
    if files != [] {
      CountOfAll(p, files[..|files| - 1]);
      CountConcat(p, AllVisits(files[..|files| - 1]), Visits(files[|files| - 1]));
    }
  }

  lemma {:induction false} CountOfAllReordered(p: Visit -> bool, a: seq<File>, b: seq<File>)
    requires multiset(a) == multiset(b)
    ensures CountIf(p, AllVisits(a)) == CountIf(p, AllVisits(b))
  {
    CountOfAll(p, a);
    CountOfAll(p, b);
    SumReordered(HitsIn(p), a, b);
  }

  /** The order of the files does not matter. */
  lemma {:induction false} FileOrderIrrelevant(t: Tally, a: seq<File>, b: seq<File>)
    requires multiset(a) == multiset(b)
    ensures TallyFiles(t, a) == TallyFiles(t, b)
  {
    hide TallyFiles, TallyVisits, AllVisits, HitsPath, HitsLeaf, LetsEscape;
    TallyOfAll(t, a);
    TallyOfAll(t, b);
    TallyCounts(t, AllVisits(a));
    TallyCounts(t, AllVisits(b));
    CountOfAllReordered(HitsPath(t.claim), a, b);
    CountOfAllReordered(HitsLeaf(t.claim), a, b);
    CountOfAllReordered(LetsEscape(t.claim), a, b);
  }

  /** A file more never clears a refuted claim. */
  lemma {:induction false} MoreFilesRefuteMore(t: Tally, files: seq<File>, more: File)
    requires Refuted(TallyFiles(t, files))
    ensures Refuted(TallyFiles(t, files + [more]))
  {
    assert (files + [more])[..|files|] == files;
    TallyCounts(TallyFiles(t, files), Visits(more));
  }

  // ---------- what refutes a claim, on the positions of a tree ----------

  /** A node and where it stands below its parent. */
  datatype Spot = Spot(node: Ast, place: Place)

  function AllAt(items: seq<Ast>, place: Place): (r: seq<Spot>)
    ensures |r| == |items| && forall i :: 0 <= i < |items| ==> r[i] == Spot(items[i], place)
  {
    seq(|items|, i requires 0 <= i < |items| => Spot(items[i], place))
  }

  /** The children of a node, in the order of the walk. */
  function ChildrenOf(node: Ast): (r: seq<Spot>)
    ensures forall i :: 0 <= i < |r| ==> r[i].node < node
  {
    match node
    case Member(target, property, _) => [Spot(target, MemberObject), Spot(property, MemberProperty)]
    case Property(key, value, _) => [Spot(key, PropertyKey), Spot(value, Elsewhere)]
    case Declarator(id, init) => [Spot(id, DeclaratorId)] + AllAt(init, Elsewhere)
    case Pattern(properties) => AllAt(properties, PatternItem)
    case Specifier(parts) => AllAt(parts, SpecifierPart)
    case Other(children) => AllAt(children, Elsewhere)
    case _ => []
  }

  /** The position of a node: child indexes from the root. */
  type Path = seq<nat>

  function SpotAt(spot: Spot, path: Path): Option<Spot>
    decreases path
  {
    if path == [] then Some(spot)
    else if path[0] < |ChildrenOf(spot.node)| then SpotAt(ChildrenOf(spot.node)[path[0]], path[1..])
    else None
  }

  /** The positions of a subtree, a node before its children. */
  function Positions(node: Ast, path: Path): seq<Path>
    decreases node, 1, 0
  {
    [path] + PositionsBelow(node, path, |ChildrenOf(node)|)
  }

  function PositionsBelow(node: Ast, path: Path, n: nat): seq<Path>
    requires n <= |ChildrenOf(node)|
    decreases node, 0, n
  {
    if n == 0 then []
    else PositionsBelow(node, path, n - 1) + Positions(ChildrenOf(node)[n - 1].node, path + [n - 1])
  }

  ghost predicate Beneath(spot: Spot, path: Path, p: Path) { path <= p && SpotAt(spot, p[|path|..]).Some? }

  ghost predicate BeneathChild(spot: Spot, path: Path, n: nat, p: Path) {
    Beneath(spot, path, p) && |path| < |p| && p[|path|] < n
  }

  lemma {:induction false} BeneathGrows(spot: Spot, path: Path, n: nat, p: Path)
    requires n < |ChildrenOf(spot.node)|
    ensures BeneathChild(spot, path, n + 1, p)
       <==> BeneathChild(spot, path, n, p) || Beneath(ChildrenOf(spot.node)[n], path + [n], p)
    ensures !(BeneathChild(spot, path, n, p) && Beneath(ChildrenOf(spot.node)[n], path + [n], p))
  {
    hide ChildrenOf;
    if path <= p && |path| < |p| {
      assert p[|path|..][1..] == p[|path| + 1..];
      assert path + [n] <= p <==> p[|path|] == n;
    }
  }

  /** Every position of the subtree is listed, once. */
  lemma {:induction false} PositionsMeaning(spot: Spot, path: Path)
    ensures Distinct(Positions(spot.node, path))
    ensures forall p :: p in Positions(spot.node, path) <==> Beneath(spot, path, p)
    decreases spot.node, 1, 0
  {
    var n := |ChildrenOf(spot.node)|;
    PositionsBelowMeaning(spot, path, n);
    hide ChildrenOf;
    forall p ensures Beneath(spot, path, p) <==> p == path || BeneathChild(spot, path, n, p) {
      if path <= p && |p| == |path| {
        assert p == path && p[|path|..] == [];
      }
      assert path[|path|..] == [];
    }
    assert !BeneathChild(spot, path, n, path);
    assert Positions(spot.node, path) == [path] + PositionsBelow(spot.node, path, n);
    DistinctConcat([path], PositionsBelow(spot.node, path, n));
  }

  lemma {:induction false} PositionsBelowMeaning(spot: Spot, path: Path, n: nat)
    requires n <= |ChildrenOf(spot.node)|
    ensures Distinct(PositionsBelow(spot.node, path, n))
    ensures forall p :: p in PositionsBelow(spot.node, path, n) <==> BeneathChild(spot, path, n, p)
    decreases spot.node, 0, n
  {
    if n > 0 {
      var child := ChildrenOf(spot.node)[n - 1];
      PositionsBelowMeaning(spot, path, n - 1);
      PositionsMeaning(child, path + [n - 1]);
      hide Beneath, BeneathChild, ChildrenOf;
      forall p
        ensures BeneathChild(spot, path, n, p)
           <==> BeneathChild(spot, path, n - 1, p) || Beneath(child, path + [n - 1], p)
        ensures !(BeneathChild(spot, path, n - 1, p) && Beneath(child, path + [n - 1], p))
      {
        BeneathGrows(spot, path, n - 1, p);
      }
      DistinctConcat(PositionsBelow(spot.node, path, n - 1), Positions(child.node, path + [n - 1]));
    }
  }

  lemma {:induction false} SpotAtChild(root: Spot, path: Path, k: nat)
    requires SpotAt(root, path).Some? && k < |ChildrenOf(SpotAt(root, path).value.node)|
    ensures SpotAt(root, path + [k]) == Some(ChildrenOf(SpotAt(root, path).value.node)[k])
    decreases path
  {
    hide ChildrenOf;
    if path == [] {
      assert path + [k] == [k] && [k][1..] == [];
    } else {
      SpotAtChild(ChildrenOf(root.node)[path[0]], path[1..], k);
      assert (path + [k])[1..] == path[1..] + [k];
    }
  }

  function VisitOf(spot: Spot): Visit {
    Visit(ReferencePath(spot.node, spot.place), LeafReference(spot.node, spot.place))
  }

  /** The walk over the first `n` children. */
  ghost function WalkSpots(node: Ast, n: nat): seq<Visit>
    requires n <= |ChildrenOf(node)|
  {
    if n == 0 then []
    else WalkSpots(node, n - 1) + Walk(ChildrenOf(node)[n - 1].node, ChildrenOf(node)[n - 1].place)
  }

  lemma {:induction false} WalkListIsSpots(node: Ast, place: Place, n: nat)
    requires node.Pattern? || node.Specifier? || node.Other?
    requires n <= |ChildrenOf(node)| && ChildrenOf(node) == AllAt(Items(node), place)
    ensures WalkSpots(node, n) == WalkList(node, place, n)
  {
    hide Walk, ChildrenOf;
    if n > 0 {
      WalkListIsSpots(node, place, n - 1);
    }
  }

  lemma {:induction false} WalkDeclaratorIsSpots(node: Ast, n: nat)
    requires node.Declarator? && n <= |node.init|
    ensures WalkSpots(node, n + 1) == Walk(node.id, DeclaratorId) + WalkList(node, Elsewhere, n)
  {
    hide Walk;
    if n > 0 {
      WalkDeclaratorIsSpots(node, n - 1);
      assert ChildrenOf(node)[n] == Spot(node.init[n - 1], Elsewhere);
    } else {
      assert WalkSpots(node, 0) == [];
    }
  }

  lemma {:induction false} WalkBelowIsSpots(node: Ast)
    ensures WalkBelow(node) == WalkSpots(node, |ChildrenOf(node)|)
  {
    hide Walk;
    match node {
      case Member(_, _, _) => assert WalkSpots(node, 0) == [] && WalkSpots(node, 1) == WalkSpots(node, 1) + [];
      case Property(_, _, _) => assert WalkSpots(node, 0) == [] && WalkSpots(node, 1) == WalkSpots(node, 1) + [];
      case Declarator(_, init) => WalkDeclaratorIsSpots(node, |init|);
      case Pattern(properties) => WalkListIsSpots(node, PatternItem, |properties|);
      case Specifier(parts) => WalkListIsSpots(node, SpecifierPart, |parts|);
      case Other(children) => WalkListIsSpots(node, Elsewhere, |children|);
      case _ =>
    }
  }

  ghost predicate Notes(root: Spot, path: Path, visit: Visit) {
    match SpotAt(root, path) case Some(spot) => visit == VisitOf(spot) case None => false
  }

  ghost predicate AllNoted(root: Spot, paths: seq<Path>, visits: seq<Visit>) {
    |paths| == |visits| && forall i :: 0 <= i < |paths| ==> Notes(root, paths[i], visits[i])
  }

  /** The walk visits the positions one by one. */
  lemma {:induction false} WalkNotes(root: Spot, spot: Spot, path: Path)
    requires SpotAt(root, path) == Some(spot)
    ensures AllNoted(root, Positions(spot.node, path), Walk(spot.node, spot.place))
    decreases spot.node, 1, 0
  {
    WalkParts(spot.node, spot.place);
    WalkBelowIsSpots(spot.node);
    assert Notes(root, path, VisitOf(spot));
    hide Notes, Walk, ChildrenOf, WalkBelow;
    WalkBelowNotes(root, spot, path, |ChildrenOf(spot.node)|);
  }

  lemma {:induction false} WalkBelowNotes(root: Spot, spot: Spot, path: Path, n: nat)
    requires SpotAt(root, path) == Some(spot) && n <= |ChildrenOf(spot.node)|
    ensures AllNoted(root, PositionsBelow(spot.node, path, n), WalkSpots(spot.node, n))
    decreases spot.node, 0, n
  {
    if n > 0 {
      hide Notes, Walk, ChildrenOf, SpotAt, Positions;
      var child := ChildrenOf(spot.node)[n - 1];
      WalkBelowNotes(root, spot, path, n - 1);
      SpotAtChild(root, path, n - 1);
      WalkNotes(root, child, path + [n - 1]);
    }
  }

  // What a node reads and uses.

  /** A chain, outside a longer chain, reads the names of its longest static part; an
      identifier reads its name, but not as part of a chain, as a key, as the name of a
      declarator or in a specifier. */
  ghost predicate Reads(spot: Spot, names: seq<string>) {
    || (spot.node.Member? && spot.place != MemberObject && LongestNames(spot.node, names))
    || (spot.node.Identifier? && spot.place in {PatternItem, Elsewhere} && names == [spot.node.name])
  }

  /** A string literal, an access `.leaf`, or a written-out key `leaf` of a pattern. */
  ghost predicate Uses(spot: Spot, leaf: string) {
    || spot.node == Literal(leaf, true)
    || (spot.node.Member? && !spot.node.computed
        && exists names :: StaticNames(spot.node.property) == Some(names) && Join(names, '.') == leaf)
    || (spot.node.Property? && !spot.node.computed && spot.place == PatternItem
        && spot.node.key in {Identifier(leaf), Literal(leaf, true)})
  }

  lemma {:induction false} ReadsMeaning(spot: Spot, name: string)
    ensures VisitOf(spot).path == Some(name) <==> exists names :: Reads(spot, names) && Join(names, '.') == name
  {
    hide LongestNames, StaticChainPrefix;
    if spot.node.Member? {
      ChainPrefixMeaning(spot.node, name);
    } else if spot.node.Identifier? {
      assert Join([spot.node.name], '.') == spot.node.name;
      var isRead := spot.place in {PatternItem, Elsewhere};
      SevenPlaces(spot.place);
      assert forall names :: Reads(spot, names) <==> isRead && names == [spot.node.name];
    }
  }

  lemma {:induction false} SevenPlaces(place: Place)
    ensures place in {PatternItem, Elsewhere}
       <==> place !in {MemberObject, MemberProperty, PropertyKey, DeclaratorId, SpecifierPart}
  {
    match place {
      case PatternItem =>
      case Elsewhere =>
      case _ =>
    }
  }

  lemma {:induction false} UsesMeaning(spot: Spot, leaf: string)
    ensures VisitOf(spot).leaf == Some(leaf) <==> Uses(spot, leaf)
  {
    if spot.node.Member? {
      hide TargetName, StaticNames;
      TargetNameMeaning(spot.node.property);
    }
  }

  // Names by their segments.

  lemma {:induction false} SegmentsPrefix(a: string, b: string)
    ensures Segments(a) <= Segments(b) <==> b == a || StartsWith(b, a + ".")
  {
    hide Split;
    JoinSplit(a, '.');
    JoinSplit(b, '.');
    if Segments(a) <= Segments(b) && |Segments(a)| < |Segments(b)| {
      var rest := Segments(b)[|Segments(a)|..];
      assert Segments(b) == Segments(a) + rest;
      JoinConcat(Segments(a), rest);
      assert b[..|a| + 1] == a + ".";
    } else if Segments(a) <= Segments(b) {
      assert Segments(a) == Segments(b);
    }
    if StartsWith(b, a + ".") {
      var rest := b[|a| + 1..];
      assert b == (a + ".") + rest == a + (['.'] + rest);
      SplitConcat(a, rest, '.');
    }
  }

  lemma {:induction false} SegmentsProper(name: string, path: string)
    ensures path in Prefixes(Segments(name)) <==> Segments(path) < Segments(name)
  {
    hide Split, Join;
    var segments := Segments(name);
    SplitParts(name, '.');
    if path in Prefixes(segments) {
      var k :| 1 <= k < |segments| && path == Join(segments[..k], '.');
      SplitJoin(segments[..k], '.');
    }
    if Segments(path) < segments {
      JoinSplit(path, '.');
      var k := |Segments(path)|;
      assert segments[..k] == Segments(path);
    }
  }

  /** A hit on the path reads the claimed segments or more, an escape only the first of
      them. */
  lemma {:induction false} HitMeaning(name: string, path: string)
    ensures PathHit(ClaimOf(name), Some(path)) <==> Segments(name) <= Segments(path)
    ensures Escapes(ClaimOf(name), Some(path)) <==> Segments(path) < Segments(name)
  {
    hide Segments, Prefixes;
    SegmentsPrefix(name, path);
    SegmentsProper(name, path);
  }

  // Tallies by positions.

  /** The node at a position reads the claimed path, or further through it. */
  ghost predicate ReadsPast(root: Ast, name: string, p: Path) {
    match SpotAt(Spot(root, Elsewhere), p)
    case None => false
    case Some(spot) => exists names :: Reads(spot, names) && Segments(name) <= Segments(Join(names, '.'))
  }

  /** It reads only the first segments of the claimed path. */
  ghost predicate ReadsShort(root: Ast, name: string, p: Path) {
    match SpotAt(Spot(root, Elsewhere), p)
    case None => false
    case Some(spot) => exists names :: Reads(spot, names) && Segments(Join(names, '.')) < Segments(name)
  }

  ghost predicate UsesLast(root: Ast, name: string, p: Path) {
    match SpotAt(Spot(root, Elsewhere), p)
    case None => false
    case Some(spot) => Uses(spot, Segments(name)[|Segments(name)| - 1])
  }

  lemma {:induction false} NotedHits(root: Ast, name: string, p: Path, v: Visit)
    requires Notes(Spot(root, Elsewhere), p, v)
    ensures HitsPath(ClaimOf(name))(v) <==> ReadsPast(root, name, p)
    ensures LetsEscape(ClaimOf(name))(v) <==> ReadsShort(root, name, p)
    ensures HitsLeaf(ClaimOf(name))(v) <==> UsesLast(root, name, p)
  {
    hide Reads, Uses, Segments, PathHit, Escapes, ReferencePath, LeafReference;
    var spot := SpotAt(Spot(root, Elsewhere), p).value;
    UsesMeaning(spot, ClaimOf(name).leaf);
    if v.path.Some? {
      ReadsMeaning(spot, v.path.value);
      HitMeaning(name, v.path.value);
    } else {
      NoPath(ClaimOf(name));
    }
    forall names | Reads(spot, names) ensures v.path == Some(Join(names, '.')) {
      ReadsMeaning(spot, Join(names, '.'));
    }
  }

  lemma {:induction false} NoPath(c: Claim)
    ensures !PathHit(c, None) && !Escapes(c, None)
  {
  }

  ghost function PastAt(root: Ast, name: string): Path -> bool { (p: Path) => ReadsPast(root, name, p) }

  ghost function ShortAt(root: Ast, name: string): Path -> bool { (p: Path) => ReadsShort(root, name, p) }

  ghost function LastAt(root: Ast, name: string): Path -> bool { (p: Path) => UsesLast(root, name, p) }

  lemma {:induction false} NotedCounts(root: Ast, name: string, paths: seq<Path>, visits: seq<Visit>)
    requires AllNoted(Spot(root, Elsewhere), paths, visits)
    ensures CountIf(HitsPath(ClaimOf(name)), visits) == CountIf(PastAt(root, name), paths)
    ensures CountIf(LetsEscape(ClaimOf(name)), visits) == CountIf(ShortAt(root, name), paths)
    ensures CountIf(HitsLeaf(ClaimOf(name)), visits) == CountIf(LastAt(root, name), paths)
  {
    if paths != [] {
      hide Notes, HitsPath, HitsLeaf, LetsEscape, ReadsPast, ReadsShort, UsesLast;
      var n := |paths| - 1;
      NotedCounts(root, name, paths[..n], visits[..n]);
      NotedHits(root, name, paths[n], visits[n]);
    }
  }

  /** The tally of a tree, on its positions. */
  lemma {:induction false} TallyByPositions(root: Ast, name: string)
    ensures var t, all := TallyVisits(CreateTally(name), Walk(root, Elsewhere)), Positions(root, []);
            && Distinct(all) && (forall p :: p in all <==> SpotAt(Spot(root, Elsewhere), p).Some?)
            && t.pathReferences == CountIf(PastAt(root, name), all)
            && t.leafReferences == CountIf(LastAt(root, name), all)
            && (t.escaped <==> exists p :: ReadsShort(root, name, p))
  {
    hide Walk, HitsPath, HitsLeaf, LetsEscape, ClaimOf, ReadsPast, ReadsShort, UsesLast;
    var spot, all := Spot(root, Elsewhere), Positions(root, []);
    PositionsMeaning(spot, []);
    forall p: Path ensures Beneath(spot, [], p) <==> SpotAt(spot, p).Some? {
      assert p[0..] == p;
    }
    hide Positions, Beneath;
    WalkNotes(spot, spot, []);
    NotedCounts(root, name, all, Walk(root, Elsewhere));
    TallyCounts(CreateTally(name), Walk(root, Elsewhere));
    SomeCount(ShortAt(root, name), all);
    forall p | ReadsShort(root, name, p) ensures p in all {
      ReadsAreSpots(root, name, p);
    }
  }

  lemma {:induction false} ReadsAreSpots(root: Ast, name: string, p: Path)
    ensures ReadsPast(root, name, p) || ReadsShort(root, name, p) || UsesLast(root, name, p)
            ==> SpotAt(Spot(root, Elsewhere), p).Some?
  {
  }

  lemma {:induction false} HitsByPositions(root: Ast, name: string)
    ensures var visits := Walk(root, Elsewhere);
            && (CountIf(HitsPath(ClaimOf(name)), visits) > 0 <==> exists p :: ReadsPast(root, name, p))
            && (CountIf(LetsEscape(ClaimOf(name)), visits) > 0 <==> exists p :: ReadsShort(root, name, p))
            && (CountIf(HitsLeaf(ClaimOf(name)), visits) > 0 <==> exists p :: UsesLast(root, name, p))
  {
    hide Walk, Positions, TallyVisits, HitsPath, HitsLeaf, LetsEscape, ClaimOf, ReadsPast, ReadsShort, UsesLast;
    TallyByPositions(root, name);
    TallyCounts(CreateTally(name), Walk(root, Elsewhere));
    SomeCount(PastAt(root, name), Positions(root, []));
    SomeCount(LastAt(root, name), Positions(root, []));
    forall p | ReadsPast(root, name, p) || UsesLast(root, name, p) ensures p in Positions(root, []) {
      ReadsAreSpots(root, name, p);
    }
  }

  ghost predicate SomePast(files: seq<File>, name: string) {
    exists i, p :: 0 <= i < |files| && ReadsPast(files[i].ast, name, p)
  }

  ghost predicate SomeShort(files: seq<File>, name: string) {
    exists i, p :: 0 <= i < |files| && ReadsShort(files[i].ast, name, p)
  }

  ghost predicate SomeLast(files: seq<File>, name: string) {
    exists i, p :: 0 <= i < |files| && UsesLast(files[i].ast, name, p)
  }

  lemma {:induction false} SomeGrow(files: seq<File>, name: string)
    requires files != []
    ensures var init, last := files[..|files| - 1], files[|files| - 1].ast;
            && (SomePast(files, name) <==> SomePast(init, name) || exists p :: ReadsPast(last, name, p))
            && (SomeShort(files, name) <==> SomeShort(init, name) || exists p :: ReadsShort(last, name, p))
            && (SomeLast(files, name) <==> SomeLast(init, name) || exists p :: UsesLast(last, name, p))
  {
    hide ReadsPast, ReadsShort, UsesLast;
    var init := files[..|files| - 1];
    assert forall i :: 0 <= i < |init| ==> init[i] == files[i];
    if i, p :| 0 <= i < |init| && ReadsPast(init[i].ast, name, p) {
      assert ReadsPast(files[i].ast, name, p);
    }
    if i, p :| 0 <= i < |init| && ReadsShort(init[i].ast, name, p) {
      assert ReadsShort(files[i].ast, name, p);
    }
    if i, p :| 0 <= i < |init| && UsesLast(init[i].ast, name, p) {
      assert UsesLast(files[i].ast, name, p);
    }
  }

  lemma {:induction false} FilesTallied(files: seq<File>, name: string)
    ensures var t := TallyFiles(CreateTally(name), files);
            && t.claim == ClaimOf(name)
            && (t.pathReferences > 0 <==> SomePast(files, name))
            && (t.escaped <==> SomeShort(files, name))
            && (t.leafReferences > 0 <==> SomeLast(files, name))
  {
    hide ClaimOf, TallyVisits, Walk;
    if files != [] {
      hide SomePast, SomeShort, SomeLast, HitsPath, HitsLeaf, LetsEscape;
      var init, last := files[..|files| - 1], files[|files| - 1];
      FilesTallied(init, name);
      TallyCounts(TallyFiles(CreateTally(name), init), Visits(last));
      HitsByPositions(last.ast, name);
      SomeGrow(files, name);
    }
  }

  /** A claim is refuted exactly by a read of its path, or of more, anywhere in the files,
      and by a read of a part of it together with a use of its last name. */
  lemma {:induction false} RefutedExactly(files: seq<File>, name: string)
    ensures Refuted(TallyFiles(CreateTally(name), files))
       <==> SomePast(files, name) || (SomeShort(files, name) && SomeLast(files, name))
  {
    hide TallyFiles, SomePast, SomeShort, SomeLast;
    FilesTallied(files, name);
  }

  // Every use of a chain counts, but for names used as an index or a key.

  lemma {:induction false} ParentSpot(root: Spot, path: Path)
    requires path != [] && SpotAt(root, path).Some?
    ensures var up := SpotAt(root, path[..|path| - 1]);
            && up.Some? && path[|path| - 1] < |ChildrenOf(up.value.node)|
            && SpotAt(root, path).value == ChildrenOf(up.value.node)[path[|path| - 1]]
    decreases path
  {
    hide ChildrenOf;
    if |path| == 1 {
      assert path[1..] == [];
    } else {
      ParentSpot(ChildrenOf(root.node)[path[0]], path[1..]);
      assert path[1..][..|path| - 2] == path[..|path| - 1][1..];
      assert path[1..][|path| - 2] == path[|path| - 1];
    }
  }

  lemma {:induction false} ObjectOfMember(node: Ast, k: nat)
    requires k < |ChildrenOf(node)| && ChildrenOf(node)[k].place == MemberObject
    ensures node.Member? && ChildrenOf(node)[k].node == node.target
  {
  }

  /** A longer chain reads the same names, or more. */
  lemma {:induction false} LongerChain(node: Ast, names: seq<string>) returns (more: seq<string>)
    requires node.Member? && LongestNames(node.target, names)
    ensures LongestNames(node, names + more)
  {
    hide LongestNames;
    if StaticNames(node).Some? {
      LongestNamesStatic(node.target, names);
      more := StaticNames(node).value[|names|..];
      LongestNamesStatic(node, names + more);
    } else {
      more := [];
      LongestNamesStep(node, names);
      assert names + more == names;
    }
  }

  /** A chain inside a chain is read by the outermost one. */
  lemma {:induction false} OutermostReads(root: Ast, p: Path, names: seq<string>)
    returns (q: Path, more: seq<string>)
    requires SpotAt(Spot(root, Elsewhere), p).Some?
    requires var spot := SpotAt(Spot(root, Elsewhere), p).value;
             && LongestNames(spot.node, names)
             && (spot.node.Member? || (spot.node.Identifier? && spot.place in {PatternItem, Elsewhere, MemberObject}))
    ensures SpotAt(Spot(root, Elsewhere), q).Some? && Reads(SpotAt(Spot(root, Elsewhere), q).value, names + more)
    decreases p
  {
    hide LongestNames, ChildrenOf;
    var spot := SpotAt(Spot(root, Elsewhere), p).value;
    if spot.place == MemberObject {
      ParentSpot(Spot(root, Elsewhere), p);
      var up := p[..|p| - 1];
      var parent := SpotAt(Spot(root, Elsewhere), up).value;
      ObjectOfMember(parent.node, p[|p| - 1]);
      var further := LongerChain(parent.node, names);
      q, more := OutermostReads(root, up, names + further);
      assert names + further + more == names + (further + more);
      more := further + more;
    } else {
      q, more := p, [];
      assert names + more == names;
      if spot.node.Identifier? {
        LongestNamesStatic(spot.node, names);
      }
    }
  }

  lemma {:induction false} SegmentsGrow(names: seq<string>, more: seq<string>)
    requires names != []
    ensures Segments(Join(names, '.')) <= Segments(Join(names + more, '.'))
  {
    hide Split;
    if more == [] {
      assert names + more == names;
    } else {
      JoinConcat(names, more);
      var a, b := Join(names, '.'), Join(more, '.');
      assert a + "." + b == a + (['.'] + b);
      SplitConcat(a, b, '.');
    }
  }

  /** Wherever a file holds a chain, or a name, whose static part is the claimed path or
      goes on from it, the claim is refuted, unless it is a bare name used as an index or
      as a key. */
  lemma {:induction false} UseRefutes(files: seq<File>, name: string, i: nat, p: Path, names: seq<string>)
    requires i < |files| && SpotAt(Spot(files[i].ast, Elsewhere), p).Some?
    requires var spot := SpotAt(Spot(files[i].ast, Elsewhere), p).value;
             && LongestNames(spot.node, names) && names != [] && Segments(name) <= Segments(Join(names, '.'))
             && (spot.node.Member? || (spot.node.Identifier? && spot.place in {PatternItem, Elsewhere, MemberObject}))
    ensures Refuted(TallyFiles(CreateTally(name), files))
  {
    hide LongestNames, Reads, TallyFiles, Refuted, Segments;
    var q, more := OutermostReads(files[i].ast, p, names);
    SegmentsGrow(names, more);
    assert ReadsPast(files[i].ast, name, q);
    RefutedExactly(files, name);
  }

  /** A name at a position, other than in an index, a key, a declaration or a specifier. */
  ghost predicate UsesName(root: Ast, name: string, p: Path) {
    match SpotAt(Spot(root, Elsewhere), p)
    case None => false
    case Some(spot) => spot.node == Identifier(name) && spot.place in {PatternItem, Elsewhere, MemberObject}
  }

  /** No identifier has a dot in it, as the syntax has it. */
  ghost predicate NamesDotless(root: Ast) {
    forall p, name, place :: SpotAt(Spot(root, Elsewhere), p) == Some(Spot(Identifier(name), place)) ==> '.' !in name
  }

  /** A chain that is static anywhere starts with an identifier, its first name. */
  lemma {:induction false} FirstName(node: Ast, names: seq<string>)
    requires node.Member? && LongestNames(node, names)
    ensures names != [] && (node.target.Identifier? ==> names[0] == node.target.name)
    ensures node.target.Identifier? || node.target.Member?
    ensures node.target.Member? ==>
              exists first :: LongestNames(node.target, first) && first != [] && first[0] == names[0]
  {
    hide LongestNames;
    TargetNameMeaning(node.target);
    if StaticNames(node).Some? {
      LongestNamesStatic(node, names);
      var first := StaticNames(node.target).value;
      LongestNamesStatic(node.target, first);
    } else {
      LongestNamesStep(node, names);
      if !node.target.Member? || StaticNames(node.target).Some? {
        LongestNamesStatic(node.target, names);
      } else {
        NamesNonEmpty(node.target, names);
      }
    }
  }

  lemma {:induction false} NamesNonEmpty(node: Ast, names: seq<string>)
    requires LongestNames(node, names)
    ensures names != []
  {
    var depth: nat :| EndsStatic(node, depth, names);
    TargetNameMeaning(Spine(node, depth));
  }

  lemma {:induction false} BaseOfChain(root: Ast, p: Path, node: Ast, place: Place, names: seq<string>)
    returns (q: Path)
    requires SpotAt(Spot(root, Elsewhere), p) == Some(Spot(node, place)) && node.Member? && LongestNames(node, names)
    ensures names != [] && SpotAt(Spot(root, Elsewhere), q) == Some(Spot(Identifier(names[0]), MemberObject))
    decreases node
  {
    hide LongestNames;
    FirstName(node, names);
    SpotAtChild(Spot(root, Elsewhere), p, 0);
    if node.target.Identifier? {
      q := p + [0];
    } else {
      var first :| LongestNames(node.target, first) && first != [] && first[0] == names[0];
      q := BaseOfChain(root, p + [0], node.target, MemberObject, first);
    }
  }

  lemma {:induction false} FirstSegment(names: seq<string>)
    requires names != [] && '.' !in names[0]
    ensures Segments(Join(names, '.'))[0] == names[0]
  {
    if |names| == 1 {
      SplitWhole(names[0], '.');
    } else {
      SplitFirst(names[0], Join(names[1..], '.'), '.');
    }
  }

  lemma {:induction false} ReadUsesName(root: Ast, name: string, p: Path) returns (q: Path)
    requires NamesDotless(root) && '.' !in name && ReadsPast(root, name, p)
    ensures UsesName(root, name, q)
  {
    hide LongestNames;
    var spot := SpotAt(Spot(root, Elsewhere), p).value;
    var names :| Reads(spot, names) && Segments(name) <= Segments(Join(names, '.'));
    SplitWhole(name, '.');
    if spot.node.Member? {
      q := BaseOfChain(root, p, spot.node, spot.place, names);
    } else {
      q := p;
      assert spot == Spot(Identifier(names[0]), spot.place);
    }
    FirstSegment(names);
  }

  /** A claim on a bare name is refuted exactly by a use of the name that is neither an
      index nor a key, wherever it stands. */
  lemma {:induction false} NameRefutedExactly(files: seq<File>, name: string)
    requires '.' !in name && forall i :: 0 <= i < |files| ==> NamesDotless(files[i].ast)
    ensures Refuted(TallyFiles(CreateTally(name), files))
       <==> exists i, p :: 0 <= i < |files| && UsesName(files[i].ast, name, p)
  {
    hide TallyFiles, NamesDotless, UsesLast, ReadsPast;
    RefutedExactly(files, name);
    SplitWhole(name, '.');
    NothingShort(files, name);
    if SomePast(files, name) {
      var i, p :| 0 <= i < |files| && ReadsPast(files[i].ast, name, p);
      var q := ReadUsesName(files[i].ast, name, p);
    }
    if i, p :| 0 <= i < |files| && UsesName(files[i].ast, name, p) {
      LongestNamesStatic(Identifier(name), [name]);
      assert Join([name], '.') == name;
      UseRefutes(files, name, i, p, [name]);
    }
  }

  lemma {:induction false} NothingShort(files: seq<File>, name: string)
    requires |Segments(name)| == 1
    ensures !SomeShort(files, name)
  {
  }

  /** A file that uses a name only as an index, or only as a computed key. */
  function IndexedBy(table: string, name: string): Ast { Member(Identifier(table), Identifier(name), true) }

  function KeyedBy(name: string): Ast { Property(Identifier(name), Literal("5", false), true) }

  /** Such uses are not seen: a live name passes as dead. */
  lemma {:induction false} IndexIsMissed(table: string, name: string)
    requires '.' !in name && !StartsWith(table, name)
    ensures !Refuted(TallyVisits(CreateTally(name), Walk(IndexedBy(table, name), Elsewhere)))
    ensures !Refuted(TallyVisits(CreateTally(name), Walk(KeyedBy(name), Elsewhere)))
  {
    var t := CreateTally(name);
    SplitWhole(name, '.');
    assert Walk(Identifier(table), MemberObject) == [SILENT] && Walk(Identifier(name), MemberProperty) == [SILENT];
    assert StaticChainPrefix(Identifier(table)) == Some(table);
    assert ReferencePath(IndexedBy(table, name), Elsewhere) == Some(table);
    assert Walk(IndexedBy(table, name), Elsewhere) == [Visit(Some(table), None)] + ([SILENT] + [SILENT]);
    assert Walk(Identifier(name), PropertyKey) == [SILENT] && Walk(Literal("5", false), Elsewhere) == [SILENT];
    assert Walk(KeyedBy(name), Elsewhere) == [SILENT] + ([SILENT] + [SILENT]);
    hide Walk;
    assert !Hits(t.claim, SILENT) && !Hits(t.claim, Visit(Some(table), None));
    SilentVisits(t, Walk(IndexedBy(table, name), Elsewhere));
    SilentVisits(t, Walk(KeyedBy(name), Elsewhere));
  }

  // ---------- a declaration as a reference to itself ----------

  predicate IsQuoted(key: Ast) { key.Literal? && key.isString }

  function QuotedText(key: Ast): Option<string> { if IsQuoted(key) then Some(key.text) else None }

  /** A key that is written out, as a name, a number or a quoted string. */
  predicate IsPlainKey(property: Ast)
    requires property.Property?
  {
    !property.computed && (property.key.Identifier? || property.key.Literal?)
  }

  /** A declarator with its name. */
  predicate DeclaresName(node: Ast) { node.Declarator? && node.id.Identifier? }

  /** A property with its written-out key, in an object literal and not in a pattern. */
  predicate DeclaresKey(node: Ast, place: Place) { node.Property? && IsPlainKey(node) && place != PatternItem }

  /** The visits of a walk without the declaring nodes, anywhere in the tree: declarators
      with their names and properties with their keys. */
  ghost function Undeclared(node: Ast, place: Place): seq<Visit>
    decreases node, 2, 0
  {
    if DeclaresName(node) then UndeclaredList(node, Elsewhere, |node.init|)
    else if DeclaresKey(node, place) then Undeclared(node.value, Elsewhere)
    else [Visit(ReferencePath(node, place), LeafReference(node, place))] + UndeclaredBelow(node)
  }

  ghost function UndeclaredBelow(node: Ast): seq<Visit>
    decreases node, 1, 0
  {
    match node
    case Member(target, property, _) => Undeclared(target, MemberObject) + Undeclared(property, MemberProperty)
    case Property(key, value, _) => Undeclared(key, PropertyKey) + Undeclared(value, Elsewhere)
    case Declarator(id, _) => Undeclared(id, DeclaratorId) + UndeclaredList(node, Elsewhere, |node.init|)
    case Pattern(_) => UndeclaredList(node, PatternItem, |node.properties|)
    case Specifier(_) => UndeclaredList(node, SpecifierPart, |node.parts|)
    case Other(_) => UndeclaredList(node, Elsewhere, |node.children|)
    case _ => []
  }

  ghost function UndeclaredList(node: Ast, place: Place, n: nat): seq<Visit>
    requires n <= |Items(node)|
    decreases node, 0, n
  {
    if n == 0 then [] else UndeclaredList(node, place, n - 1) + Undeclared(Items(node)[n - 1], place)
  }

  /** How often, anywhere in the tree, a declared key is quoted and has the given text. */
  ghost function QuotedKeys(node: Ast, place: Place, leaf: string): nat
    decreases node, 2, 0
  {
    if DeclaresName(node) then QuotedKeysOfList(node, Elsewhere, |node.init|, leaf)
    else if DeclaresKey(node, place) then
      (if QuotedText(node.key) == Some(leaf) then 1 else 0) + QuotedKeys(node.value, Elsewhere, leaf)
    else QuotedKeysBelow(node, leaf)
  }

  ghost function QuotedKeysBelow(node: Ast, leaf: string): nat
    decreases node, 1, 0
  {
    match node
    case Member(target, property, _) =>
      QuotedKeys(target, MemberObject, leaf) + QuotedKeys(property, MemberProperty, leaf)
    case Property(key, value, _) => QuotedKeys(key, PropertyKey, leaf) + QuotedKeys(value, Elsewhere, leaf)
    case Declarator(id, _) => QuotedKeys(id, DeclaratorId, leaf) + QuotedKeysOfList(node, Elsewhere, |node.init|, leaf)
    case Pattern(_) => QuotedKeysOfList(node, PatternItem, |node.properties|, leaf)
    case Specifier(_) => QuotedKeysOfList(node, SpecifierPart, |node.parts|, leaf)
    case Other(_) => QuotedKeysOfList(node, Elsewhere, |node.children|, leaf)
    case _ => 0
  }

  ghost function QuotedKeysOfList(node: Ast, place: Place, n: nat, leaf: string): nat
    requires n <= |Items(node)|
    decreases node, 0, n
  {
    if n == 0 then 0
    else QuotedKeysOfList(node, place, n - 1, leaf) + QuotedKeys(Items(node)[n - 1], place, leaf)
  }

  const SILENT := Visit(None, None)

  /** What the declaring nodes themselves report: nothing, but for the text of a quoted
      key as a leaf. */
  lemma {:induction false} DeclaringNodes(node: Ast, place: Place)
    ensures DeclaresName(node) ==>
              Walk(node, place) == [SILENT, SILENT] + WalkList(node, Elsewhere, |node.init|)
    ensures DeclaresKey(node, place) ==>
              Walk(node, place) == [SILENT, Visit(None, QuotedText(node.key))] + Walk(node.value, Elsewhere)
  {
    if DeclaresName(node) {
      assert Walk(node.id, DeclaratorId) == [SILENT];
    }
    if DeclaresKey(node, place) {
      assert Walk(node.key, PropertyKey) == [Visit(None, QuotedText(node.key))];
    }
  }

  /** The visits below a node, whatever its place. */
  ghost function WalkBelow(node: Ast): seq<Visit> {
    match node
    case Member(target, property, _) => Walk(target, MemberObject) + Walk(property, MemberProperty)
    case Property(key, value, _) => Walk(key, PropertyKey) + Walk(value, Elsewhere)
    case Declarator(id, _) => Walk(id, DeclaratorId) + WalkList(node, Elsewhere, |node.init|)
    case Pattern(_) => WalkList(node, PatternItem, |node.properties|)
    case Specifier(_) => WalkList(node, SpecifierPart, |node.parts|)
    case Other(_) => WalkList(node, Elsewhere, |node.children|)
    case _ => []
  }

  lemma {:induction false} WalkParts(node: Ast, place: Place)
    ensures Walk(node, place) == [Visit(ReferencePath(node, place), LeafReference(node, place))] + WalkBelow(node)
  {
  }

  /** `more` leaf references besides what `visits` tally. */
  function WithLeaves(t: Tally, visits: seq<Visit>, more: nat): Tally {
    var u := TallyVisits(t, visits);
    u.(leafReferences := u.leafReferences + more)
  }

  lemma {:induction false} TallyPair(t: Tally, leaf: Option<string>, rest: seq<Visit>)
    ensures TallyVisits(t, [SILENT, Visit(None, leaf)] + rest)
         == WithLeaves(t, rest, if LeafHit(t.claim, leaf) then 1 else 0)
  {
    hide TallyVisits, HitsPath, HitsLeaf, LetsEscape;
    var pair := [SILENT, Visit(None, leaf)];
    TallyConcat(t, pair, rest);
    PairTally(t, leaf);
    TallyCounts(TallyVisits(t, pair), rest);
    TallyCounts(t, rest);
  }

  lemma {:induction false} PairTally(t: Tally, leaf: Option<string>)
    ensures TallyVisits(t, [SILENT, Visit(None, leaf)])
         == t.(leafReferences := t.leafReferences + if LeafHit(t.claim, leaf) then 1 else 0)
  {
    var pair := [SILENT, Visit(None, leaf)];
    assert pair[..1] == [SILENT] && pair[..1][..0] == [];
    assert TallyVisits(t, pair[..1]) == t;
  }

  lemma {:induction false} LeavesThenVisits(t: Tally, a: seq<Visit>, more: nat, b: seq<Visit>, again: nat)
    ensures WithLeaves(WithLeaves(t, a, more), b, again) == WithLeaves(t, a + b, more + again)
  {
    hide TallyVisits, HitsPath, HitsLeaf, LetsEscape;
    TallyConcat(t, a, b);
    TallyCounts(t, a);
    TallyCounts(TallyVisits(t, a), b);
    TallyCounts(WithLeaves(t, a, more), b);
  }

  lemma {:induction false} CountsTogether(
    t: Tally, a: seq<Visit>, u: seq<Visit>, m: nat, b: seq<Visit>, v: seq<Visit>, n: nat)
    requires TallyVisits(t, a) == WithLeaves(t, u, m)
    requires TallyVisits(TallyVisits(t, a), b) == WithLeaves(TallyVisits(t, a), v, n)
    ensures TallyVisits(t, a + b) == WithLeaves(t, u + v, m + n)
  {
    hide TallyVisits, WithLeaves;
    TallyConcat(t, a, b);
    LeavesThenVisits(t, u, m, v, n);
  }

  /** Declaring names, wherever in a tree, adds no path reference and no escape to any
      claim, and a leaf reference exactly for each quoted key that is the leaf. */
  lemma {:induction false} DeclarationCounts(node: Ast, place: Place, t: Tally)
    ensures TallyVisits(t, Walk(node, place))
         == WithLeaves(t, Undeclared(node, place), QuotedKeys(node, place, t.claim.leaf))
    decreases node, 2, 0
  {
    hide TallyVisits, Walk, QuotedText, UndeclaredBelow, QuotedKeysBelow, UndeclaredList, QuotedKeysOfList;
    DeclaringNodes(node, place);
    if DeclaresName(node) {
      DeclarationListCounts(node, Elsewhere, |node.init|, t);
      TallyPair(t, None, WalkList(node, Elsewhere, |node.init|));
    } else if DeclaresKey(node, place) {
      TallyPair(t, QuotedText(node.key), Walk(node.value, Elsewhere));
      DeclarationCounts(node.value, Elsewhere, t);
    } else {
      var top := [Visit(ReferencePath(node, place), LeafReference(node, place))];
      WalkParts(node, place);
      KeepsClaim(t, top);
      CountsBelow(node, TallyVisits(t, top));
      NoMore(t, top);
      CountsTogether(t, top, top, 0, WalkBelow(node), UndeclaredBelow(node), QuotedKeysBelow(node, t.claim.leaf));
    }
  }

  lemma {:induction false} CountsBelow(node: Ast, t: Tally)
    ensures TallyVisits(t, WalkBelow(node)) == WithLeaves(t, UndeclaredBelow(node), QuotedKeysBelow(node, t.claim.leaf))
    decreases node, 1, 0
  {
    hide TallyVisits, Walk, WithLeaves, Undeclared, QuotedKeys, UndeclaredList, QuotedKeysOfList;
    match node {
      case Member(target, property, _) =>
        DeclarationCounts(target, MemberObject, t);
        KeepsClaim(t, Walk(target, MemberObject));
        DeclarationCounts(property, MemberProperty, TallyVisits(t, Walk(target, MemberObject)));
        CountsTogether(
          t, Walk(target, MemberObject), Undeclared(target, MemberObject),
          QuotedKeys(target, MemberObject, t.claim.leaf),
          Walk(property, MemberProperty), Undeclared(property, MemberProperty),
          QuotedKeys(property, MemberProperty, t.claim.leaf));
      case Property(key, value, _) =>
        DeclarationCounts(key, PropertyKey, t);
        KeepsClaim(t, Walk(key, PropertyKey));
        DeclarationCounts(value, Elsewhere, TallyVisits(t, Walk(key, PropertyKey)));
        CountsTogether(
          t, Walk(key, PropertyKey), Undeclared(key, PropertyKey), QuotedKeys(key, PropertyKey, t.claim.leaf),
          Walk(value, Elsewhere), Undeclared(value, Elsewhere), QuotedKeys(value, Elsewhere, t.claim.leaf));
      case Declarator(id, init) =>
        DeclarationCounts(id, DeclaratorId, t);
        KeepsClaim(t, Walk(id, DeclaratorId));
        DeclarationListCounts(node, Elsewhere, |init|, TallyVisits(t, Walk(id, DeclaratorId)));
        CountsTogether(
          t, Walk(id, DeclaratorId), Undeclared(id, DeclaratorId), QuotedKeys(id, DeclaratorId, t.claim.leaf),
          WalkList(node, Elsewhere, |init|), UndeclaredList(node, Elsewhere, |init|),
          QuotedKeysOfList(node, Elsewhere, |init|, t.claim.leaf));
      case Pattern(properties) => DeclarationListCounts(node, PatternItem, |properties|, t);
      case Specifier(parts) => DeclarationListCounts(node, SpecifierPart, |parts|, t);
      case Other(children) => DeclarationListCounts(node, Elsewhere, |children|, t);
      case _ => NoVisits(t);
    }
  }

  lemma {:induction false} DeclarationListCounts(node: Ast, place: Place, n: nat, t: Tally)
    requires n <= |Items(node)|
    ensures TallyVisits(t, WalkList(node, place, n))
         == WithLeaves(t, UndeclaredList(node, place, n), QuotedKeysOfList(node, place, n, t.claim.leaf))
    decreases node, 0, n
  {
    hide TallyVisits, Walk, Undeclared, QuotedKeys, WithLeaves;
    if n > 0 {
      var child, before := Items(node)[n - 1], WalkList(node, place, n - 1);
      DeclarationListCounts(node, place, n - 1, t);
      KeepsClaim(t, before);
      DeclarationCounts(child, place, TallyVisits(t, before));
      CountsTogether(
        t, before, UndeclaredList(node, place, n - 1), QuotedKeysOfList(node, place, n - 1, t.claim.leaf),
        Walk(child, place), Undeclared(child, place), QuotedKeys(child, place, t.claim.leaf));
    } else {
      NoVisits(t);
    }
  }

  lemma {:induction false} NoMore(t: Tally, visits: seq<Visit>)
    ensures TallyVisits(t, visits) == WithLeaves(t, visits, 0)
  {
  }

  lemma {:induction false} NoVisits(t: Tally)
    ensures TallyVisits(t, []) == t && WithLeaves(t, [], 0) == t
  {
  }

  lemma {:induction false} KeepsClaim(t: Tally, visits: seq<Visit>)
    ensures TallyVisits(t, visits).claim == t.claim
  {
    TallyCounts(t, visits);
  }

  /** A constant that holds an object with the one key, and an escape of the constant. */
  function DeclaredAndEscaped(constant: string, key: Ast): Ast {
    var literal := Other([Property(key, Literal("5", false), false)]);
    Other([Declarator(Identifier(constant), [literal]), Identifier(constant)])
  }

  lemma {:induction false} SingleItem(node: Ast, x: Ast, leaf: string)
    requires node == Other([x]) || (node.Declarator? && node.id.Identifier? && node.init == [x])
    ensures Undeclared(node, Elsewhere) == (if node.Other? then [SILENT] else []) + Undeclared(x, Elsewhere)
    ensures QuotedKeys(node, Elsewhere, leaf) == QuotedKeys(x, Elsewhere, leaf)
  {
    assert UndeclaredList(node, Elsewhere, 0) == [];
    assert UndeclaredList(node, Elsewhere, 1) == Undeclared(x, Elsewhere);
    assert QuotedKeysOfList(node, Elsewhere, 0, leaf) == 0;
    assert QuotedKeysOfList(node, Elsewhere, 1, leaf) == QuotedKeys(x, Elsewhere, leaf);
  }

  lemma {:induction false} TwoItems(x: Ast, y: Ast, leaf: string)
    ensures Undeclared(Other([x, y]), Elsewhere) == [SILENT] + (Undeclared(x, Elsewhere) + Undeclared(y, Elsewhere))
    ensures QuotedKeys(Other([x, y]), Elsewhere, leaf)
         == QuotedKeys(x, Elsewhere, leaf) + QuotedKeys(y, Elsewhere, leaf)
  {
    var node := Other([x, y]);
    assert UndeclaredList(node, Elsewhere, 0) == [];
    assert UndeclaredList(node, Elsewhere, 1) == Undeclared(x, Elsewhere);
    assert QuotedKeysOfList(node, Elsewhere, 0, leaf) == 0;
    assert QuotedKeysOfList(node, Elsewhere, 1, leaf) == QuotedKeys(x, Elsewhere, leaf);
    assert UndeclaredList(node, Elsewhere, 2) == Undeclared(x, Elsewhere) + Undeclared(y, Elsewhere);
    assert QuotedKeysOfList(node, Elsewhere, 2, leaf)
        == QuotedKeys(x, Elsewhere, leaf) + QuotedKeys(y, Elsewhere, leaf);
  }

  lemma {:induction false} UndeclaredEscape(constant: string, key: Ast, leaf: string)
    requires key.Identifier? || key.Literal?
    ensures Undeclared(DeclaredAndEscaped(constant, key), Elsewhere)
         == [SILENT, SILENT, SILENT, Visit(Some(constant), None)]
    ensures QuotedKeys(DeclaredAndEscaped(constant, key), Elsewhere, leaf)
         == if QuotedText(key) == Some(leaf) then 1 else 0
  {
    var number := Literal("5", false);
    var member := Property(key, number, false);
    assert Undeclared(number, Elsewhere) == [SILENT] && QuotedKeys(number, Elsewhere, leaf) == 0;
    assert Undeclared(member, Elsewhere) == [SILENT];
    assert QuotedKeys(member, Elsewhere, leaf) == if QuotedText(key) == Some(leaf) then 1 else 0;
    assert Undeclared(Identifier(constant), Elsewhere) == [Visit(Some(constant), None)];
    assert QuotedKeys(Identifier(constant), Elsewhere, leaf) == 0;
    hide Undeclared, QuotedKeys;
    SingleItem(Other([member]), member, leaf);
    var declarator := Declarator(Identifier(constant), [Other([member])]);
    SingleItem(declarator, Other([member]), leaf);
    TwoItems(declarator, Identifier(constant), leaf);
  }

  lemma {:induction false} TwoSegments(constant: string, leaf: string)
    requires '.' !in constant && '.' !in leaf
    ensures ClaimOf(constant + "." + leaf) == Claim(constant + "." + leaf, leaf, {constant})
  {
    SplitFirst(constant, leaf, '.');
    SplitWhole(leaf, '.');
    var segments := Segments(constant + "." + leaf);
    assert segments == [constant, leaf];
    assert segments[..1] == [constant];
    assert Prefixes(segments) == {constant};
  }

  /** A claim on a member of an escaped constant that nothing else uses is refuted by its
      own declaration exactly when the key is quoted there. */
  lemma {:induction false} QuotedKeyRefutesItself(constant: string, leaf: string, key: Ast)
    requires '.' !in constant && '.' !in leaf
    requires key == Identifier(leaf) || key == Literal(leaf, true)
    ensures Refuted(TallyVisits(CreateTally(constant + "." + leaf), Walk(DeclaredAndEscaped(constant, key), Elsewhere)))
       <==> IsQuoted(key)
  {
    var t := CreateTally(constant + "." + leaf);
    TwoSegments(constant, leaf);
    UndeclaredEscape(constant, key, leaf);
    DeclarationCounts(DeclaredAndEscaped(constant, key), Elsewhere, t);
    EscapeTally(t, constant);
  }

  lemma {:induction false} EscapeTally(t: Tally, constant: string)
    requires t.claim.prefixes == {constant} && |constant| < |t.claim.path|
    ensures TallyVisits(t, [SILENT, SILENT, SILENT, Visit(Some(constant), None)]) == t.(escaped := true)
  {
    var before := [SILENT, SILENT, SILENT];
    var visits := before + [Visit(Some(constant), None)];
    assert visits == [SILENT, SILENT, SILENT, Visit(Some(constant), None)];
    assert visits[..3] == before;
    SilentTally(t, before);
  }

  lemma {:induction false} SilentTally(t: Tally, visits: seq<Visit>)
    requires forall i :: 0 <= i < |visits| ==> visits[i] == SILENT
    ensures TallyVisits(t, visits) == t
  {
    if visits != [] {
      SilentTally(t, visits[..|visits| - 1]);
    }
  }

  // ---------- the words of a syntax tree ----------

  /** All names and literal texts of a tree. */
  ghost function Words(node: Ast): set<string>
    decreases node, 1, 0
  {
    match node
    case Identifier(name) => {name}
    case Literal(text, _) => {text}
    case Member(target, property, _) => Words(target) + Words(property)
    case Property(key, value, _) => Words(key) + Words(value)
    case Declarator(id, _) => Words(id) + WordsOfList(node, |node.init|)
    case Pattern(_) => WordsOfList(node, |node.properties|)
    case Specifier(_) => WordsOfList(node, |node.parts|)
    case Other(_) => WordsOfList(node, |node.children|)
  }

  ghost function WordsOfList(node: Ast, n: nat): set<string>
    requires n <= |Items(node)|
    decreases node, 0, n
  {
    if n == 0 then {} else WordsOfList(node, n - 1) + Words(Items(node)[n - 1])
  }

  ghost predicate NamesFrom(names: seq<string>, words: set<string>) {
    names != [] && forall i :: 0 <= i < |names| ==> names[i] in words
  }

  /** A dotted name put together from words. */
  ghost predicate MadeOf(s: string, words: set<string>) {
    exists names: seq<string> :: NamesFrom(names, words) && s == Join(names, '.')
  }

  lemma {:induction false} MadeOfMore(s: string, words: set<string>, more: set<string>)
    requires MadeOf(s, words) && words <= more
    ensures MadeOf(s, more)
  {
    var names: seq<string> :| NamesFrom(names, words) && s == Join(names, '.');
    assert forall i :: 0 <= i < |names| ==> names[i] in more;
  }

  lemma {:induction false} MadeOfWord(w: string, words: set<string>)
    requires w in words
    ensures MadeOf(w, words)
  {
    var names := [w];
    assert Join(names, '.') == w;
  }

  lemma {:induction false} JoinConcat(a: seq<string>, b: seq<string>)
    requires a != [] && b != []
    ensures Join(a + b, '.') == Join(a, '.') + "." + Join(b, '.')
  {
    if |a| == 1 {
      assert (a + b)[1..] == b;
    } else {
      JoinConcat(a[1..], b);
      assert (a + b)[1..] == a[1..] + b;
      var rest, tail := Join(a[1..], '.'), Join(b, '.');
      assert a[0] + ['.'] + (rest + "." + tail) == a[0] + ['.'] + rest + "." + tail;
    }
  }

  lemma {:induction false} MadeOfDotted(s: string, t: string, words: set<string>)
    requires MadeOf(s, words) && MadeOf(t, words)
    ensures MadeOf(s + "." + t, words)
  {
    var a: seq<string> :| NamesFrom(a, words) && s == Join(a, '.');
    var b: seq<string> :| NamesFrom(b, words) && t == Join(b, '.');
    JoinConcat(a, b);
    var names := a + b;
    assert forall i :: 0 <= i < |names| ==> names[i] in words;
  }

  lemma {:induction false} TargetNameMade(node: Ast)
    requires TargetName(node).Some?
    ensures MadeOf(TargetName(node).value, Words(node))
  {
    if node.Identifier? {
      MadeOfWord(node.name, Words(node));
    } else {
      TargetNameMade(node.target);
      MadeOfMore(TargetName(node.target).value, Words(node.target), Words(node));
      var propertyName: string;
      if node.computed {
        propertyName := node.property.text;
        assert Words(node.property) == {propertyName};
        MadeOfWord(propertyName, Words(node));
      } else {
        propertyName := TargetName(node.property).value;
        TargetNameMade(node.property);
        MadeOfMore(propertyName, Words(node.property), Words(node));
      }
      MadeOfDotted(TargetName(node.target).value, propertyName, Words(node));
    }
  }

  lemma {:induction false} ChainPrefixMade(node: Ast)
    requires StaticChainPrefix(node).Some?
    ensures MadeOf(StaticChainPrefix(node).value, Words(node))
  {
    if node.Member? && TargetName(node).None? {
      ChainPrefixMade(node.target);
      MadeOfMore(StaticChainPrefix(node).value, Words(node.target), Words(node));
    } else {
      TargetNameMade(node);
    }
  }

  ghost predicate VisitMade(v: Visit, words: set<string>) {
    (v.path.Some? ==> MadeOf(v.path.value, words)) && (v.leaf.Some? ==> MadeOf(v.leaf.value, words))
  }

  lemma {:induction false} NodeVisitMade(node: Ast, place: Place)
    ensures VisitMade(Visit(ReferencePath(node, place), LeafReference(node, place)), Words(node))
  {
    hide MadeOf;
    if ReferencePath(node, place).Some? {
      if node.Member? {
        ChainPrefixMade(node);
      } else {
        MadeOfWord(node.name, Words(node));
      }
    }
    if LeafReference(node, place).Some? {
      if node.Literal? {
        MadeOfWord(node.text, Words(node));
      } else if node.Member? {
        TargetNameMade(node.property);
        MadeOfMore(TargetName(node.property).value, Words(node.property), Words(node));
      } else {
        KeyNameMade(node);
      }
    }
  }

  lemma {:induction false} KeyNameMade(node: Ast)
    requires node.Property? && KeyName(node).Some?
    ensures MadeOf(KeyName(node).value, Words(node))
  {
    assert Words(node.key) == {KeyName(node).value};
    MadeOfWord(KeyName(node).value, Words(node));
  }

  lemma {:induction false} VisitMadeMore(v: Visit, words: set<string>, more: set<string>)
    requires VisitMade(v, words) && words <= more
    ensures VisitMade(v, more)
  {
    hide MadeOf;
    if v.path.Some? {
      MadeOfMore(v.path.value, words, more);
    }
    if v.leaf.Some? {
      MadeOfMore(v.leaf.value, words, more);
    }
  }

  ghost predicate AllMade(visits: seq<Visit>, words: set<string>) {
    forall i :: 0 <= i < |visits| ==> VisitMade(visits[i], words)
  }

  lemma {:induction false} AllMadeMore(visits: seq<Visit>, words: set<string>, more: set<string>)
    requires AllMade(visits, words) && words <= more
    ensures AllMade(visits, more)
  {
    hide VisitMade;
    forall i | 0 <= i < |visits| ensures VisitMade(visits[i], more) {
      VisitMadeMore(visits[i], words, more);
    }
  }

  /** Every name a walk reports is put together from words of the tree. */
  lemma {:induction false} WalkMade(node: Ast, place: Place)
    ensures AllMade(Walk(node, place), Words(node))
    decreases node, 1, 0
  {
    hide VisitMade, ReferencePath, LeafReference;
    NodeVisitMade(node, place);
    match node {
      case Identifier(_) =>
      case Literal(_, _) =>
      case Member(target, property, _) =>
        ChildMade(target, MemberObject, node);
        ChildMade(property, MemberProperty, node);
      case Property(key, value, _) =>
        ChildMade(key, PropertyKey, node);
        ChildMade(value, Elsewhere, node);
      case Declarator(id, _) =>
        ChildMade(id, DeclaratorId, node);
        ListMade(node, Elsewhere, |node.init|);
      case Pattern(_) => ListMade(node, PatternItem, |node.properties|);
      case Specifier(_) => ListMade(node, SpecifierPart, |node.parts|);
      case Other(_) => ListMade(node, Elsewhere, |node.children|);
    }
  }

  lemma {:induction false} ChildMade(child: Ast, place: Place, node: Ast)
    requires child < node && Words(child) <= Words(node)
    ensures AllMade(Walk(child, place), Words(node))
    decreases node, 0, 0
  {
    WalkMade(child, place);
    AllMadeMore(Walk(child, place), Words(child), Words(node));
  }

  lemma {:induction false} ListMade(node: Ast, place: Place, n: nat)
    requires n <= |Items(node)| && WordsOfList(node, |Items(node)|) <= Words(node)
    ensures AllMade(WalkList(node, place, n), Words(node))
    decreases node, 0, n
  {
    hide VisitMade;
    if n > 0 {
      ListMade(node, place, n - 1);
      var child := Items(node)[n - 1];
      WordsOfItem(node, n - 1, |Items(node)|);
      WalkMade(child, place);
      AllMadeMore(Walk(child, place), Words(child), Words(node));
    }
  }

  lemma {:induction false} WordsOfItem(node: Ast, k: nat, n: nat)
    requires k < n <= |Items(node)|
    ensures Words(Items(node)[k]) <= WordsOfList(node, n)
  {
    if k < n - 1 {
      WordsOfItem(node, k, n - 1);
    }
  }

  // ---------- skipping files ----------

  function Needles(c: Claim): set<string> { c.prefixes + {c.leaf, c.path} }

  predicate Relevant(source: string, needles: set<string>) {
    exists needle :: needle in needles && Contains(source, needle)
  }

  /** A dotted name starts with a dotless word only if its first part does. */
  lemma {:induction false} FirstPart(names: seq<string>, g: string)
    requires names != [] && '.' !in g && StartsWith(Join(names, '.'), g)
    ensures StartsWith(names[0], g)
  {
    var whole := Join(names, '.');
    if |names| > 1 {
      assert whole[|names[0]|] == '.';
    }
  }

  lemma {:induction false} WordStarts(s: string, words: set<string>, g: string)
    requires MadeOf(s, words) && '.' !in g && StartsWith(s, g)
    ensures exists w :: w in words && StartsWith(w, g)
  {
    var names: seq<string> :| NamesFrom(names, words) && s == Join(names, '.');
    FirstPart(names, g);
    assert names[0] in words;
  }

  lemma {:induction false} JoinStarts(parts: seq<string>)
    requires parts != []
    ensures StartsWith(Join(parts, '.'), parts[0])
  {
  }

  /** The name a claim starts with: dotless, sought in every file, and the start of
      everything that counts as a reference to the claim. */
  lemma {:induction false} RootSegment(name: string) returns (root: string)
    ensures '.' !in root && root in Needles(ClaimOf(name)) && StartsWith(name, root)
    ensures forall p :: p in ClaimOf(name).prefixes ==> StartsWith(p, root)
  {
    var segments := Segments(name);
    root := segments[0];
    SplitParts(name, '.');
    JoinSplit(name, '.');
    JoinStarts(segments);
    if |segments| > 1 {
      assert Join(segments[..1], '.') == root;
    }
    forall p | p in ClaimOf(name).prefixes ensures StartsWith(p, root) {
      var k :| 1 <= k < |segments| && p == Join(segments[..k], '.');
      JoinStarts(segments[..k]);
    }
  }

  predicate Hits(c: Claim, v: Visit) { PathHit(c, v.path) || Escapes(c, v.path) || LeafHit(c, v.leaf) }

  /** What counts for a claim holds a word that starts with something sought. */
  lemma {:induction false} HitStartsWithNeedle(name: string, v: Visit, words: set<string>) returns (g: string)
    requires Hits(ClaimOf(name), v) && VisitMade(v, words)
    ensures g in Needles(ClaimOf(name)) && exists w :: w in words && StartsWith(w, g)
  {
    hide MadeOf;
    if LeafHit(ClaimOf(name), v.leaf) {
      SplitParts(name, '.');
      g := ClaimOf(name).leaf;
      WordStarts(v.leaf.value, words, g);
    } else {
      g := RootSegment(name);
      WordStarts(v.path.value, words, g);
    }
  }

  /** A sought name that a word of the tree starts with stands in the text. */
  ghost predicate Spelled(file: File, needles: set<string>) {
    forall w, g :: w in Words(file.ast) && g in needles && StartsWith(w, g) ==> Contains(file.source, g)
  }

  /** In a file whose text holds nothing sought, nothing counts for the claim. */
  lemma {:induction false} IrrelevantFileIsSilent(name: string, file: File, needles: set<string>, k: nat)
    requires Needles(ClaimOf(name)) <= needles
    requires Spelled(file, needles) && !Relevant(file.source, needles) && k < |Visits(file)|
    ensures !Hits(ClaimOf(name), Visits(file)[k])
  {
    if Hits(ClaimOf(name), Visits(file)[k]) {
      WalkMade(file.ast, Elsewhere);
      var g := HitStartsWithNeedle(name, Visits(file)[k], Words(file.ast));
      assert false;
    }
  }

  lemma {:induction false} SilentVisits(t: Tally, visits: seq<Visit>)
    requires forall k :: 0 <= k < |visits| ==> !Hits(t.claim, visits[k])
    ensures TallyVisits(t, visits) == t
  {
    if visits != [] {
      SilentVisits(t, visits[..|visits| - 1]);
      assert !Hits(t.claim, visits[|visits| - 1]);
    }
  }

  /** So leaving the file out changes no tally. */
  lemma {:induction false} SkippingIsSafe(name: string, t: Tally, file: File, needles: set<string>)
    requires t.claim == ClaimOf(name) && Needles(t.claim) <= needles
    requires Spelled(file, needles) && !Relevant(file.source, needles)
    ensures TallyVisits(t, Visits(file)) == t
  {
    forall k | 0 <= k < |Visits(file)| ensures !Hits(t.claim, Visits(file)[k]) {
      IrrelevantFileIsSilent(name, file, needles, k);
    }
    SilentVisits(t, Visits(file));
  }

  ghost predicate SomeHit(c: Claim, visits: seq<Visit>) {
    exists k :: 0 <= k < |visits| && Hits(c, visits[k])
  }

  /** A file that hits the claim nowhere leaves a tally as it is, and any other file
      changes a fresh one. */
  lemma {:induction false} UnchangedExactly(t: Tally, visits: seq<Visit>)
    ensures !SomeHit(t.claim, visits) ==> TallyVisits(t, visits) == t
    ensures !t.escaped ==> (TallyVisits(t, visits) == t <==> !SomeHit(t.claim, visits))
  {
    if !SomeHit(t.claim, visits) {
      SilentVisits(t, visits);
    } else {
      TallyCounts(t, visits);
      var k :| 0 <= k < |visits| && Hits(t.claim, visits[k]);
      CountZero(HitsPath(t.claim), visits);
      CountZero(HitsLeaf(t.claim), visits);
      CountZero(LetsEscape(t.claim), visits);
    }
  }

  /** A name written with an escape does not stand in the text, and its file is missed. */
  lemma {:induction false} EscapedNameIsMissed()
    ensures var t := CreateTally("A");
            var file := File("\\u0041", Other([Identifier("A")]));
            && !Relevant(file.source, Needles(t.claim))
            && !Refuted(t)
            && Refuted(TallyVisits(t, Visits(file)))
  {
    var t := CreateTally("A");
    assert Segments("A") == ["A"] by { SplitWhole("A", '.'); }
    assert t.claim == Claim("A", "A", {});
    var file := File("\\u0041", Other([Identifier("A")]));
    forall i: nat | i <= |file.source| ensures !OccursAt(file.source, i, "A") {
      assert i < |file.source| ==> file.source[i..i + 1][0] == file.source[i] != 'A';
    }
    var inner := Visit(Some("A"), None);
    assert Walk(Identifier("A"), Elsewhere) == [inner];
    assert WalkList(file.ast, Elsewhere, 1) == [inner];
    var visits := Visits(file);
    assert visits == [Visit(None, None), inner];
    assert visits[..1] == [Visit(None, None)] && visits[..1][..0] == [];
    assert TallyVisits(t, visits[..1]) == t;
  }

  // ---------- the tally of a whole source tree ----------

  /** The tallies of a list of claims over a list of visits. */
  function TallyEach(tallies: seq<Tally>, visits: seq<Visit>): seq<Tally> {
    seq(|tallies|, i requires 0 <= i < |tallies| => TallyVisits(tallies[i], visits))
  }

  /** One visit, entered into every tally. */
  method TallyNode(tallies: seq<Tally>, v: Visit) returns (after: seq<Tally>)
    ensures |after| == |tallies|
    ensures forall i :: 0 <= i < |tallies| ==> after[i] == TallyVisit(tallies[i], v)
  {
    after := [];
    for i := 0 to |tallies|
      invariant |after| == i
      invariant forall j :: 0 <= j < i ==> after[j] == TallyVisit(tallies[j], v)
    {
      var t := tallies[i];
      if PathHit(t.claim, v.path) {
        t := t.(pathReferences := t.pathReferences + 1);
      } else if v.path.Some? && v.path.value in t.claim.prefixes {
        t := t.(escaped := true);
      }
      if LeafHit(t.claim, v.leaf) {
        t := t.(leafReferences := t.leafReferences + 1);
      }
      after := after + [t];
    }
  }

  method TallyFile(tallies: seq<Tally>, file: File) returns (after: seq<Tally>)
    ensures after == TallyEach(tallies, Visits(file))
  {
    var visits := Visits(file);
    after := tallies;
    for i := 0 to |visits|
      invariant after == TallyEach(tallies, visits[..i])
    {
      var next := TallyNode(after, visits[i]);
      assert visits[..i + 1][..i] == visits[..i];
      after := next;
    }
    assert visits[..|visits|] == visits;
  }

  function AllNeedles(tallies: seq<Tally>): set<string> {
    set i, g | 0 <= i < |tallies| && g in Needles(tallies[i].claim) :: g
  }

  function TallyTree(tallies: seq<Tally>, files: seq<File>): seq<Tally> {
    seq(|tallies|, i requires 0 <= i < |tallies| => TallyFiles(tallies[i], files))
  }

  lemma {:induction false} TallyTreeStep(tallies: seq<Tally>, files: seq<File>, file: File)
    ensures TallyTree(tallies, files + [file]) == TallyEach(TallyTree(tallies, files), Visits(file))
  {
    assert (files + [file])[..|files|] == files;
  }

  function IsRelevant(needles: set<string>): File -> bool { (file: File) => Relevant(file.source, needles) }

  function CreateTallies(names: seq<string>): seq<Tally> {
    seq(|names|, i requires 0 <= i < |names| => CreateTally(names[i]))
  }

  /** The files that are parsed at all. */
  function Parsed(names: seq<string>, files: seq<File>): seq<File> {
    Filter(IsRelevant(AllNeedles(CreateTallies(names))), files)
  }

  /** Files without anything sought are skipped, all others tallied for every claim. */
  method TallyDeadClaimReferences(names: seq<string>, files: seq<File>) returns (tallies: seq<Tally>)
    ensures tallies == TallyTree(CreateTallies(names), Parsed(names, files))
  {
    hide TallyEach, TallyTree;
    ghost var initial := CreateTallies(names);
    tallies := CreateTallies(names);
    var needles := AllNeedles(tallies);
    assert tallies == TallyTree(initial, []) by {
      EmptyTree(initial);
    }
    for k := 0 to |files|
      invariant tallies == TallyTree(initial, Filter(IsRelevant(needles), files[..k]))
    {
      assert files[..k + 1][..k] == files[..k];
      if Relevant(files[k].source, needles) {
        TallyTreeStep(initial, Filter(IsRelevant(needles), files[..k]), files[k]);
        tallies := TallyFile(tallies, files[k]);
      } else {
        FilterSkips(IsRelevant(needles), files[..k + 1]);
      }
    }
    assert files[..|files|] == files;
  }

  lemma {:induction false} EmptyTree(tallies: seq<Tally>)
    ensures TallyTree(tallies, []) == tallies
  {
  }

  lemma {:induction false} TallyKeepsClaim(t: Tally, files: seq<File>)
    ensures TallyFiles(t, files).claim == t.claim
  {
    if files != [] {
      TallyKeepsClaim(t, files[..|files| - 1]);
      TallyCounts(TallyFiles(t, files[..|files| - 1]), Visits(files[|files| - 1]));
    }
  }

  lemma {:induction false} SkippingManyIsSafe(name: string, files: seq<File>, needles: set<string>)
    requires Needles(ClaimOf(name)) <= needles
    requires forall k :: 0 <= k < |files| ==> Spelled(files[k], needles)
    ensures TallyFiles(CreateTally(name), Filter(IsRelevant(needles), files)) == TallyFiles(CreateTally(name), files)
  {
    hide Spelled, ClaimOf, Relevant, Needles;
    if files != [] {
      var t, init, last := CreateTally(name), files[..|files| - 1], files[|files| - 1];
      SkippingManyIsSafe(name, init, needles);
      TallyKeepsClaim(t, init);
      if Relevant(last.source, needles) {
        var kept := Filter(IsRelevant(needles), init);
        assert (kept + [last])[..|kept|] == kept;
      } else {
        FilterSkips(IsRelevant(needles), files);
        SkippingIsSafe(name, TallyFiles(t, init), last, needles);
      }
    }
  }

  /** When every file spells the sought names out, skipping files changes no tally: the
      fast scan decides every claim as the scan of all files would. */
  lemma {:induction false} FastScanIsExact(names: seq<string>, files: seq<File>)
    requires forall k :: 0 <= k < |files| ==> Spelled(files[k], AllNeedles(CreateTallies(names)))
    ensures TallyTree(CreateTallies(names), Parsed(names, files)) == TallyTree(CreateTallies(names), files)
  {
    hide Spelled, ClaimOf, TallyFiles;
    var initial := CreateTallies(names);
    forall i | 0 <= i < |names|
      ensures TallyFiles(initial[i], Parsed(names, files)) == TallyFiles(initial[i], files)
    {
      assert Needles(initial[i].claim) <= AllNeedles(initial);
      SkippingManyIsSafe(names[i], files, AllNeedles(initial));
    }
  }

  function IsSkipped(needles: set<string>): File -> bool { (file: File) => !Relevant(file.source, needles) }

  lemma {:induction false} CountOfParts(p: Visit -> bool, files: seq<File>, needles: set<string>)
    ensures CountIf(p, AllVisits(files))
         == CountIf(p, AllVisits(Filter(IsRelevant(needles), files)))
          + CountIf(p, AllVisits(Filter(IsSkipped(needles), files)))
  {
    hide Relevant, Visits;
    if files != [] {
      var init, last := files[..|files| - 1], files[|files| - 1];
      CountOfParts(p, init, needles);
      CountConcat(p, AllVisits(init), Visits(last));
      var kept, skipped := Filter(IsRelevant(needles), init), Filter(IsSkipped(needles), init);
      if Relevant(last.source, needles) {
        FilterSkips(IsSkipped(needles), files);
        OneMoreFile(p, kept, last);
      } else {
        FilterSkips(IsRelevant(needles), files);
        OneMoreFile(p, skipped, last);
      }
    }
  }

  lemma {:induction false} OneMoreFile(p: Visit -> bool, files: seq<File>, last: File)
    ensures CountIf(p, AllVisits(files + [last])) == CountIf(p, AllVisits(files)) + CountIf(p, Visits(last))
  {
    assert (files + [last])[..|files|] == files;
    CountConcat(p, AllVisits(files), Visits(last));
  }

  ghost predicate NothingLost(c: Claim, kept: seq<Visit>, skipped: seq<Visit>) {
    && CountIf(HitsPath(c), skipped) == 0
    && CountIf(HitsLeaf(c), skipped) == 0
    && (CountIf(LetsEscape(c), skipped) > 0 ==> CountIf(LetsEscape(c), kept) > 0)
  }

  /** Whatever the files look like, skipping changes a fresh tally exactly when a skipped
      file holds a path or leaf hit, or the only escape. */
  lemma {:induction false} FastScanExactly(t: Tally, needles: set<string>, files: seq<File>)
    requires !t.escaped
    ensures TallyFiles(t, Filter(IsRelevant(needles), files)) == TallyFiles(t, files)
       <==> NothingLost(
              t.claim, AllVisits(Filter(IsRelevant(needles), files)), AllVisits(Filter(IsSkipped(needles), files)))
  {
    hide TallyVisits, TallyFiles, AllVisits, HitsPath, HitsLeaf, LetsEscape;
    TallyOfAll(t, files);
    TallyOfAll(t, Filter(IsRelevant(needles), files));
    TallyCounts(t, AllVisits(files));
    TallyCounts(t, AllVisits(Filter(IsRelevant(needles), files)));
    CountOfParts(HitsPath(t.claim), files, needles);
    CountOfParts(HitsLeaf(t.claim), files, needles);
    CountOfParts(LetsEscape(t.claim), files, needles);
  }

  ghost predicate AtMost(a: Tally, b: Tally) {
    && a.pathReferences <= b.pathReferences
    && a.leafReferences <= b.leafReferences
    && (a.escaped ==> b.escaped)
  }

  lemma {:induction false} TallyGrows(t: Tally, visits: seq<Visit>)
    ensures AtMost(t, TallyVisits(t, visits))
  {
    TallyCounts(t, visits);
  }

  lemma {:induction false} TallyMonotone(t: Tally, u: Tally, visits: seq<Visit>)
    requires t.claim == u.claim && AtMost(t, u)
    ensures AtMost(TallyVisits(t, visits), TallyVisits(u, visits))
  {
    TallyCounts(t, visits);
    TallyCounts(u, visits);
  }

  /** In any case the fast scan counts no more, and refutes no claim that the scan of all
      files would not. */
  lemma {:induction false} FastScanNeverOverRefutes(t: Tally, needles: set<string>, files: seq<File>)
    ensures var fast, full := TallyFiles(t, Filter(IsRelevant(needles), files)), TallyFiles(t, files);
            AtMost(fast, full) && (Refuted(fast) ==> Refuted(full))
  {
    hide Relevant, TallyVisits;
    if files != [] {
      var init, last := files[..|files| - 1], files[|files| - 1];
      FastScanNeverOverRefutes(t, needles, init);
      var kept := Filter(IsRelevant(needles), init);
      if Relevant(last.source, needles) {
        assert (kept + [last])[..|kept|] == kept;
        TallyKeepsClaim(t, init);
        TallyKeepsClaim(t, kept);
        TallyMonotone(TallyFiles(t, kept), TallyFiles(t, init), Visits(last));
      } else {
        FilterSkips(IsRelevant(needles), files);
        TallyGrows(TallyFiles(t, init), Visits(last));
      }
    }
  }
}
