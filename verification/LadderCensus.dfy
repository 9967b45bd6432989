/** The partition-class census: predicate calls in a syntax tree are decision sites,
    but the critical and priority calls under one `||` expression that holds both
    collapse into a single ladder site. */
module LadderCensus {
  import opened Lists

  datatype Kind = CriticalCall | PriorityCall | SystemTableCall

  /** A syntax tree node as far as the census looks at it: whether it is an `||`, the
      kind of legacy predicate it calls, and how many other sites it is. */
  datatype Ast = Ast(isOr: bool, call: Option<Kind>, otherSites: nat, children: seq<Ast>)

  /** The position of a node: child indexes from the root. */
  type Path = seq<nat>

  datatype Ancestor = Ancestor(path: Path, isOr: bool)

  /** A predicate call with its nearest enclosing `||`. */
  datatype Edge = Edge(kind: Kind, orExpression: Option<Path>)

  datatype Visit = Visit(edge: Option<Edge>, otherSites: nat)

  // ---------- the walk ----------

  /** The innermost ancestor that is an `||`. */
  function NearestOr(ancestors: seq<Ancestor>): Option<Path> {
    if ancestors == [] then None
    else if ancestors[|ancestors| - 1].isOr then Some(ancestors[|ancestors| - 1].path)
    else NearestOr(ancestors[..|ancestors| - 1])
  }

  function Walk(node: Ast, path: Path, ancestors: seq<Ancestor>): seq<Visit>
    decreases node, 1, 0
  {
    var edge := if node.call.Some? then Some(Edge(node.call.value, NearestOr(ancestors))) else None;
    [Visit(edge, node.otherSites)] + WalkChildren(node, path, ancestors + [Ancestor(path, node.isOr)], |node.children|)
  }

  function WalkChildren(node: Ast, path: Path, ancestors: seq<Ancestor>, n: nat): seq<Visit>
    requires n <= |node.children|
    decreases node, 0, n
  {
    if n == 0 then []
    else WalkChildren(node, path, ancestors, n - 1) + Walk(node.children[n - 1], path + [n - 1], ancestors)
  }

  function Edges(visits: seq<Visit>): seq<Edge> {
    if visits == [] then []
    else
      var edge := visits[|visits| - 1].edge;
      Edges(visits[..|visits| - 1]) + if edge.Some? then [edge.value] else []
  }

  function OthersIn(v: Visit): int { v.otherSites }

  // ---------- ladders ----------

  predicate Collapses(kind: Kind) { kind == CriticalCall || kind == PriorityCall }

  /** The edges under one `||`, as indexes into the edge list. */
  function Under(edges: seq<Edge>, o: Path): set<nat> {
    set i: nat | i < |edges| && edges[i].orExpression == Some(o)
  }

  predicate HasKind(edges: seq<Edge>, o: Path, kind: Kind) {
    exists i :: i in Under(edges, o) && edges[i].kind == kind
  }

  /** Both kinds of call stand under the expression. */
  predicate IsLadder(edges: seq<Edge>, o: Path) {
    HasKind(edges, o, CriticalCall) && HasKind(edges, o, PriorityCall)
  }

  /** The edges under an expression that a ladder stands for. */
  function Collapsing(edges: seq<Edge>, o: Path): set<nat> {
    set i | i in Under(edges, o) && Collapses(edges[i].kind)
  }

  /** The edge is represented by the ladder of its nearest `||`. */
  ghost predicate Suppressed(edges: seq<Edge>, i: nat)
    requires i < |edges|
  {
    edges[i].orExpression.Some? && Collapses(edges[i].kind) && IsLadder(edges, edges[i].orExpression.value)
  }

  datatype Ladder = Ladder(orExpression: Path, collapsedEdgeCount: int)

  /** The groups of edges, with the expressions in order of appearance. */
  method GroupEdges(edges: seq<Edge>) returns (keys: seq<Path>, edgesByOr: map<Path, set<nat>>)
    ensures Distinct(keys) && forall o :: o in keys <==> o in edgesByOr
    ensures forall o :: o in edgesByOr <==> Under(edges, o) != {}
    ensures forall o :: o in edgesByOr ==> edgesByOr[o] == Under(edges, o)
  {
    keys, edgesByOr := [], map[];
    for i := 0 to |edges|
      invariant Distinct(keys) && forall o :: o in keys <==> o in edgesByOr
      invariant forall o :: o in edgesByOr <==> Under(edges[..i], o) != {}
      invariant forall o :: o in edgesByOr ==> edgesByOr[o] == Under(edges[..i], o)
    {
      var edge := edges[i];
      forall o
        ensures Under(edges[..i + 1], o) == Under(edges[..i], o) + if edge.orExpression == Some(o) then {i} else {}
      {
        UnderGrows(edges, i, o);
      }
      hide Under;
      if edge.orExpression.Some? {
        var o := edge.orExpression.value;
        if o in edgesByOr {
          edgesByOr := edgesByOr[o := edgesByOr[o] + {i}];
        } else {
          DistinctAppend(keys, o);
          keys := keys + [o];
          edgesByOr := edgesByOr[o := {i}];
        }
      }
    }
    assert edges[..|edges|] == edges;
  }

  lemma {:induction false} UnderGrows(edges: seq<Edge>, i: nat, o: Path)
    requires i < |edges|
    ensures Under(edges[..i + 1], o) == Under(edges[..i], o) + if edges[i].orExpression == Some(o) then {i} else {}
  {
  }

  lemma {:induction false} SubsetSize(a: set<nat>, b: set<nat>)
    requires a <= b
    ensures |a| <= |b|
  {
    assert b == a + (b - a);
  }

  /** A ladder stands for at least two edges. */
  lemma {:induction false} LadderCollapses(edges: seq<Edge>, o: Path)
    requires IsLadder(edges, o)
    ensures |Collapsing(edges, o)| >= 2
  {
    var i :| i in Under(edges, o) && edges[i].kind == CriticalCall;
    var j :| j in Under(edges, o) && edges[j].kind == PriorityCall;
    assert i != j;
    SubsetSize({i, j}, Collapsing(edges, o));
  }

  // ---------- collapsing the ladders ----------

  function CollapsedIn(l: Ladder): int { l.collapsedEdgeCount }

  function LaddersOf(edges: seq<Edge>, keys: seq<Path>): seq<Ladder> {
    if keys == [] then []
    else
      var before, o := LaddersOf(edges, keys[..|keys| - 1]), keys[|keys| - 1];
      if IsLadder(edges, o) then before + [Ladder(o, |Collapsing(edges, o)| - 1)] else before
  }

  function SuppressedBy(edges: seq<Edge>, keys: seq<Path>): set<nat> {
    if keys == [] then {}
    else
      var before, o := SuppressedBy(edges, keys[..|keys| - 1]), keys[|keys| - 1];
      if IsLadder(edges, o) then before + Collapsing(edges, o) else before
  }

  method CollapseLadders(edges: seq<Edge>, keys: seq<Path>, edgesByOr: map<Path, set<nat>>)
    returns (suppressed: set<nat>, ladders: seq<Ladder>)
    requires Distinct(keys) && forall o :: o in keys ==> o in edgesByOr && edgesByOr[o] == Under(edges, o)
    ensures suppressed == SuppressedBy(edges, keys) && ladders == LaddersOf(edges, keys)
  {
    hide Under, Collapsing, IsLadder;
    suppressed, ladders := {}, [];
    for n := 0 to |keys|
      invariant suppressed == SuppressedBy(edges, keys[..n]) && ladders == LaddersOf(edges, keys[..n])
    {
      var o := keys[n];
      assert keys[..n + 1][..n] == keys[..n];
      if IsLadder(edges, o) {
        suppressed := suppressed + Collapsing(edges, o);
        OnlyOwnEdges(edges, keys[..n], o);
        ladders := ladders + [Ladder(o, |edgesByOr[o] * suppressed| - 1)];
      }
    }
    assert keys[..|keys|] == keys;
  }

  lemma {:induction false} SuppressedMember(edges: seq<Edge>, keys: seq<Path>, i: nat)
    ensures i in SuppressedBy(edges, keys) <==>
            i < |edges| && Suppressed(edges, i) && edges[i].orExpression.value in keys
  {
    if keys != [] {
      SuppressedMember(edges, keys[..|keys| - 1], i);
    }
  }

  /** Of the edges suppressed so far, the ones under an expression are its own. */
  lemma {:induction false} OnlyOwnEdges(edges: seq<Edge>, keys: seq<Path>, o: Path)
    requires o !in keys
    ensures SuppressedBy(edges, keys) !! Collapsing(edges, o)
    ensures Under(edges, o) * (SuppressedBy(edges, keys) + Collapsing(edges, o)) == Collapsing(edges, o)
  {
    forall i | i in SuppressedBy(edges, keys) ensures i !in Under(edges, o) {
      SuppressedMember(edges, keys, i);
    }
  }

  /** Each ladder takes in one edge more than it collapses. */
  lemma {:induction false} SuppressedSize(edges: seq<Edge>, keys: seq<Path>)
    requires Distinct(keys)
    ensures |SuppressedBy(edges, keys)| == SumBy(CollapsedIn, LaddersOf(edges, keys)) + |LaddersOf(edges, keys)|
    ensures SumBy(CollapsedIn, LaddersOf(edges, keys)) >= |LaddersOf(edges, keys)|
  {
    if keys != [] {
      hide Collapsing;
      var init, o := keys[..|keys| - 1], keys[|keys| - 1];
      SuppressedSize(edges, init);
      if IsLadder(edges, o) {
        OnlyOwnEdges(edges, init, o);
        LadderCollapses(edges, o);
        SumAppend(CollapsedIn, LaddersOf(edges, init), Ladder(o, |Collapsing(edges, o)| - 1));
      }
    }
  }

  /** There is one ladder for each expression that is one. */
  lemma {:induction false} LadderMembers(edges: seq<Edge>, keys: seq<Path>, o: Path)
    requires Distinct(keys)
    ensures CountIf(LadderAt(o), LaddersOf(edges, keys)) == if o in keys && IsLadder(edges, o) then 1 else 0
  {
    if keys != [] {
      hide IsLadder;
      var init, last := keys[..|keys| - 1], keys[|keys| - 1];
      LadderMembers(edges, init, o);
      if IsLadder(edges, last) {
        CountAppend(LadderAt(o), LaddersOf(edges, init), Ladder(last, |Collapsing(edges, last)| - 1));
      }
      assert last !in init;
    }
  }

  /** The expressions of the list that are ladders. */
  ghost function LadderKeys(edges: seq<Edge>, keys: seq<Path>): set<Path> {
    set o | o in keys && IsLadder(edges, o)
  }

  lemma {:induction false} LadderCount(edges: seq<Edge>, keys: seq<Path>)
    requires Distinct(keys)
    ensures |LaddersOf(edges, keys)| == |LadderKeys(edges, keys)|
  {
    if keys != [] {
      hide IsLadder;
      var init, last := keys[..|keys| - 1], keys[|keys| - 1];
      LadderCount(edges, init);
      assert last !in init && forall o :: o in keys <==> o in init || o == last;
      assert LadderKeys(edges, keys) == LadderKeys(edges, init) + if IsLadder(edges, last) then {last} else {};
    }
  }

  function LadderAt(o: Path): Ladder -> bool { (l: Ladder) => l.orExpression == o }

  // ---------- the census of one file ----------

  /** The edges that remain sites of their own. */
  function Remaining(edges: seq<Edge>, suppressed: set<nat>, n: nat): seq<Edge>
    requires n <= |edges|
  {
    if n == 0 then []
    else Remaining(edges, suppressed, n - 1) + if n - 1 in suppressed then [] else [edges[n - 1]]
  }

  lemma {:induction false} RemainingSize(edges: seq<Edge>, suppressed: set<nat>, n: nat)
    requires n <= |edges|
    ensures |Remaining(edges, suppressed, n)| + |set i | i in suppressed && i < n| == n
  {
    if n > 0 {
      RemainingSize(edges, suppressed, n - 1);
      var before := set i | i in suppressed && i < n - 1;
      if n - 1 in suppressed {
        assert (set i | i in suppressed && i < n) == before + {n - 1};
      } else {
        assert (set i | i in suppressed && i < n) == before;
      }
    } else {
      assert (set i | i in suppressed && i < 0) == {};
    }
  }

  // ---------- what the census of a file must say ----------

  /** The edges that a ladder stands for, and the expressions that are ladders. */
  ghost function SuppressedEdges(edges: seq<Edge>): set<nat> {
    set i: nat | i < |edges| && Suppressed(edges, i)
  }

  ghost function LadderExpressions(edges: seq<Edge>): set<Path> {
    set i: nat | i < |edges| && edges[i].orExpression.Some? && IsLadder(edges, edges[i].orExpression.value)
      :: edges[i].orExpression.value
  }

  function EdgeCount(root: Ast): int { |Edges(Walk(root, [], []))| }

  function OtherCount(root: Ast): int { SumBy(OthersIn, Walk(root, [], [])) }

  /** Of the edges under a ladder all but one are collapsed. */
  ghost function CollapsedCount(root: Ast): int {
    var edges := Edges(Walk(root, [], []));
    |SuppressedEdges(edges)| - |LadderExpressions(edges)|
  }

  ghost function SiteCount(root: Ast): int { EdgeCount(root) + OtherCount(root) - CollapsedCount(root) }

  lemma {:induction false} LadderIsUnder(edges: seq<Edge>, o: Path)
    requires IsLadder(edges, o)
    ensures exists i: nat :: i < |edges| && edges[i].orExpression == Some(o)
  {
    var i :| i in Under(edges, o) && edges[i].kind == CriticalCall;
    assert i < |edges|;
  }

  lemma {:induction false} AllLadderKeys(edges: seq<Edge>, keys: seq<Path>)
    requires forall o :: o in keys <==> Under(edges, o) != {}
    ensures LadderKeys(edges, keys) == LadderExpressions(edges)
  {
    forall o ensures o in LadderKeys(edges, keys) <==> o in LadderExpressions(edges) {
      if IsLadder(edges, o) {
        LadderIsUnder(edges, o);
        var i: nat :| i < |edges| && edges[i].orExpression == Some(o);
        assert i in Under(edges, o);
      }
    }
  }

  datatype FileCensus = FileCensus(
    siteCount: int, predicateEdgeCount: int, otherSiteCount: int, collapsedLadderEdges: int)

  /** The census of a file as a function of its tree. */
  ghost function CensusOf(root: Ast): FileCensus {
    FileCensus(SiteCount(root), EdgeCount(root), OtherCount(root), CollapsedCount(root))
  }

  /** Sites are the raw edges and other sites less the collapsed edges. */
  ghost predicate Accounted(c: FileCensus) {
    c.siteCount == c.predicateEdgeCount + c.otherSiteCount - c.collapsedLadderEdges
  }

  method CollectVisits(visits: seq<Visit>) returns (edges: seq<Edge>, otherSites: nat)
    ensures edges == Edges(visits) && otherSites == SumBy(OthersIn, visits)
  {
    edges, otherSites := [], 0;
    for i := 0 to |visits|
      invariant edges == Edges(visits[..i]) && otherSites == SumBy(OthersIn, visits[..i])
    {
      assert visits[..i + 1][..i] == visits[..i];
      if visits[i].edge.Some? {
        edges := edges + [visits[i].edge.value];
      }
      otherSites := otherSites + visits[i].otherSites;
    }
    assert visits[..|visits|] == visits;
  }

  /** The census of one file. */
  method CollectFileCensus(
    root: Ast) returns (census: FileCensus, edges: seq<Edge>, suppressed: set<nat>, ladders: seq<Ladder>)
    ensures edges == Edges(Walk(root, [], [])) && Accounted(census)
    ensures census.predicateEdgeCount == |edges| && census.otherSiteCount == SumBy(OthersIn, Walk(root, [], []))
    ensures census.siteCount == |Remaining(edges, suppressed, |edges|)| + census.otherSiteCount + |ladders|
    ensures forall i: nat :: i in suppressed <==> i < |edges| && Suppressed(edges, i)
    ensures forall o :: CountIf(LadderAt(o), ladders) == if IsLadder(edges, o) then 1 else 0
    ensures census == CensusOf(root) && census.collapsedLadderEdges >= |ladders|
  {
    var otherSites;
    edges, otherSites := CollectVisits(Walk(root, [], []));
    var keys, edgesByOr := GroupEdges(edges);
    suppressed, ladders := CollapseLadders(edges, keys, edgesByOr);
    var collapsedLadderEdges := SumBy(CollapsedIn, ladders);
    SuppressedSize(edges, keys);
    SuppressedEverywhere(edges, keys);
    LadderCount(edges, keys);
    AllLadderKeys(edges, keys);
    assert suppressed == SuppressedEdges(edges);
    hide IsLadder, Suppressed, Walk, Edges;
    RemainingSize(edges, suppressed, |edges|);
    assert (set i | i in suppressed && i < |edges|) == suppressed;
    var remaining := Remaining(edges, suppressed, |edges|);
    census := FileCensus(|remaining| + otherSites + |ladders|, |edges|, otherSites, collapsedLadderEdges);
  }

  lemma {:induction false} SuppressedEverywhere(edges: seq<Edge>, keys: seq<Path>)
    requires Distinct(keys) && forall o :: o in keys <==> Under(edges, o) != {}
    ensures forall i: nat :: i in SuppressedBy(edges, keys) <==> i < |edges| && Suppressed(edges, i)
    ensures forall o :: CountIf(LadderAt(o), LaddersOf(edges, keys)) == if IsLadder(edges, o) then 1 else 0
  {
    forall i: nat ensures i in SuppressedBy(edges, keys) <==> i < |edges| && Suppressed(edges, i) {
      SuppressedMember(edges, keys, i);
      if i < |edges| && edges[i].orExpression.Some? {
        assert i in Under(edges, edges[i].orExpression.value);
      }
    }
    forall o ensures CountIf(LadderAt(o), LaddersOf(edges, keys)) == if IsLadder(edges, o) then 1 else 0 {
      LadderMembers(edges, keys, o);
    }
  }

  // ---------- the census on tree positions ----------

  /** The node at a position. */
  function NodeAt(node: Ast, path: Path): Option<Ast> {
    if path == [] then Some(node)
    else if path[0] < |node.children| then NodeAt(node.children[path[0]], path[1..])
    else None
  }

  predicate OrAt(root: Ast, path: Path) {
    match NodeAt(root, path) case Some(node) => node.isOr case None => false
  }

  predicate CallAt(root: Ast, path: Path, kind: Kind) {
    match NodeAt(root, path) case Some(node) => node.call == Some(kind) case None => false
  }

  /** The longest proper prefix of a position that is an `||`, or none. */
  ghost predicate Innermost(root: Ast, path: Path, o: Option<Path>) {
    match o
    case None => forall k :: 0 <= k < |path| ==> !OrAt(root, path[..k])
    case Some(q) =>
      && |q| < |path| && q == path[..|q|] && OrAt(root, q)
      && forall k :: |q| < k < |path| ==> !OrAt(root, path[..k])
  }

  /** What the walk notes of the node at a position. */
  ghost predicate Notes(root: Ast, path: Path, visit: Visit) {
    match NodeAt(root, path)
    case None => false
    case Some(node) =>
      && visit.otherSites == node.otherSites
      && (visit.edge.Some? <==> node.call.Some?)
      && (visit.edge.Some? ==>
            visit.edge.value.kind == node.call.value && Innermost(root, path, visit.edge.value.orExpression))
  }

  ghost predicate AllNoted(root: Ast, paths: seq<Path>, visits: seq<Visit>) {
    |paths| == |visits| && forall i :: 0 <= i < |paths| ==> Notes(root, paths[i], visits[i])
  }

  /** The positions of a subtree, a node before its children. */
  function Positions(node: Ast, path: Path): seq<Path>
    decreases node, 1, 0
  {
    [path] + PositionsBelow(node, path, |node.children|)
  }

  function PositionsBelow(node: Ast, path: Path, n: nat): seq<Path>
    requires n <= |node.children|
    decreases node, 0, n
  {
    if n == 0 then []
    else PositionsBelow(node, path, n - 1) + Positions(node.children[n - 1], path + [n - 1])
  }

  ghost predicate Beneath(node: Ast, path: Path, p: Path) { path <= p && NodeAt(node, p[|path|..]).Some? }

  ghost predicate BeneathChild(node: Ast, path: Path, n: nat, p: Path) {
    Beneath(node, path, p) && |path| < |p| && p[|path|] < n
  }

  lemma {:induction false} BeneathGrows(node: Ast, path: Path, n: nat, p: Path)
    requires n < |node.children|
    ensures BeneathChild(node, path, n + 1, p)
       <==> BeneathChild(node, path, n, p) || Beneath(node.children[n], path + [n], p)
    ensures !(BeneathChild(node, path, n, p) && Beneath(node.children[n], path + [n], p))
  {
    if path <= p && |path| < |p| {
      assert p[|path|..][1..] == p[|path| + 1..];
      assert path + [n] <= p <==> p[|path|] == n;
    }
  }

  /** Every position of the subtree is listed, once. */
  lemma {:induction false} PositionsMeaning(node: Ast, path: Path)
    ensures Distinct(Positions(node, path))
    ensures forall p :: p in Positions(node, path) <==> Beneath(node, path, p)
    decreases node, 1, 0
  {
    var n := |node.children|;
    PositionsBelowMeaning(node, path, n);
    forall p ensures Beneath(node, path, p) <==> p == path || BeneathChild(node, path, n, p) {
      if path <= p && |p| == |path| {
        assert p == path && p[|path|..] == [];
      }
      assert path[|path|..] == [];
    }
    assert !BeneathChild(node, path, n, path);
    assert Positions(node, path) == [path] + PositionsBelow(node, path, n);
    DistinctConcat([path], PositionsBelow(node, path, n));
  }

  lemma {:induction false} PositionsBelowMeaning(node: Ast, path: Path, n: nat)
    requires n <= |node.children|
    ensures Distinct(PositionsBelow(node, path, n))
    ensures forall p :: p in PositionsBelow(node, path, n) <==> BeneathChild(node, path, n, p)
    decreases node, 0, n
  {
    if n > 0 {
      PositionsBelowMeaning(node, path, n - 1);
      PositionsMeaning(node.children[n - 1], path + [n - 1]);
      hide Beneath, BeneathChild;
      forall p
        ensures BeneathChild(node, path, n, p)
           <==> BeneathChild(node, path, n - 1, p) || Beneath(node.children[n - 1], path + [n - 1], p)
        ensures !(BeneathChild(node, path, n - 1, p) && Beneath(node.children[n - 1], path + [n - 1], p))
      {
        BeneathGrows(node, path, n - 1, p);
      }
      DistinctConcat(PositionsBelow(node, path, n - 1), Positions(node.children[n - 1], path + [n - 1]));
    }
  }

  lemma {:induction false} NodeAtChild(root: Ast, path: Path, k: nat)
    requires NodeAt(root, path).Some? && k < |NodeAt(root, path).value.children|
    ensures NodeAt(root, path + [k]) == Some(NodeAt(root, path).value.children[k])
  {
    if path == [] {
      assert path + [k] == [k] && [k][1..] == [];
    } else {
      NodeAtChild(root.children[path[0]], path[1..], k);
      assert (path + [k])[1..] == path[1..] + [k];
    }
  }

  /** The list of ancestors that the walk keeps. */
  ghost predicate AncestorsOf(root: Ast, path: Path, ancestors: seq<Ancestor>) {
    && |ancestors| == |path|
    && forall k :: 0 <= k < |path| ==> ancestors[k] == Ancestor(path[..k], OrAt(root, path[..k]))
  }

  lemma {:induction false} NearestIsInnermost(root: Ast, path: Path, ancestors: seq<Ancestor>)
    requires AncestorsOf(root, path, ancestors)
    ensures Innermost(root, path, NearestOr(ancestors))
  {
    if path != [] {
      var init := path[..|path| - 1];
      assert forall k :: 0 <= k <= |init| ==> init[..k] == path[..k];
      NearestIsInnermost(root, init, ancestors[..|path| - 1]);
    }
  }

  lemma {:induction false} FirstNoted(root: Ast, node: Ast, path: Path, ancestors: seq<Ancestor>)
    requires NodeAt(root, path) == Some(node) && AncestorsOf(root, path, ancestors)
    ensures Notes(root, path, Walk(node, path, ancestors)[0])
    ensures AncestorsOf(root, path, ancestors) && OrAt(root, path) == node.isOr
  {
    hide Innermost;
    NearestIsInnermost(root, path, ancestors);
  }

  /** The walk notes every node of the tree, with its innermost `||`. */
  lemma {:induction false} WalkNotes(root: Ast, node: Ast, path: Path, ancestors: seq<Ancestor>)
    requires NodeAt(root, path) == Some(node) && AncestorsOf(root, path, ancestors)
    ensures AllNoted(root, Positions(node, path), Walk(node, path, ancestors))
    decreases node, 1, 0
  {
    FirstNoted(root, node, path, ancestors);
    hide Notes;
    WalkBelowNotes(root, node, path, ancestors, |node.children|);
  }

  lemma {:induction false} WalkBelowNotes(root: Ast, node: Ast, path: Path, ancestors: seq<Ancestor>, n: nat)
    requires NodeAt(root, path) == Some(node) && AncestorsOf(root, path, ancestors) && n <= |node.children|
    ensures AllNoted(root, PositionsBelow(node, path, n),
                     WalkChildren(node, path, ancestors + [Ancestor(path, node.isOr)], n))
    decreases node, 0, n
  {
    if n > 0 {
      hide Notes;
      WalkBelowNotes(root, node, path, ancestors, n - 1);
      NodeAtChild(root, path, n - 1);
      ChildAncestors(root, node, path, ancestors, n - 1);
      WalkNotes(root, node.children[n - 1], path + [n - 1], ancestors + [Ancestor(path, node.isOr)]);
    }
  }

  lemma {:induction false} ChildAncestors(root: Ast, node: Ast, path: Path, ancestors: seq<Ancestor>, k: nat)
    requires NodeAt(root, path) == Some(node) && AncestorsOf(root, path, ancestors)
    ensures AncestorsOf(root, path + [k], ancestors + [Ancestor(path, node.isOr)])
  {
    assert forall i :: 0 <= i < |path| ==> (path + [k])[..i] == path[..i];
    assert (path + [k])[..|path|] == path;
  }

  // The edges, position by position.

  predicate Calls(root: Ast, path: Path) {
    match NodeAt(root, path) case Some(node) => node.call.Some? case None => false
  }

  function Calling(root: Ast): Path -> bool { (path: Path) => Calls(root, path) }

  function OthersAt(root: Ast): Path -> int {
    (path: Path) => match NodeAt(root, path) case Some(node) => node.otherSites case None => 0
  }

  ghost predicate EdgeAt(root: Ast, path: Path, edge: Edge) {
    CallAt(root, path, edge.kind) && Innermost(root, path, edge.orExpression)
  }

  ghost predicate EdgesAt(root: Ast, paths: seq<Path>, edges: seq<Edge>) {
    |paths| == |edges| && forall i :: 0 <= i < |paths| ==> EdgeAt(root, paths[i], edges[i])
  }

  lemma {:induction false} NotedEdge(root: Ast, path: Path, visit: Visit)
    requires Notes(root, path, visit)
    ensures visit.edge.Some? <==> Calls(root, path)
    ensures visit.edge.Some? ==> EdgeAt(root, path, visit.edge.value)
    ensures visit.otherSites == OthersAt(root)(path)
  {
    hide Innermost;
  }

  lemma {:induction false} NotedEdges(root: Ast, paths: seq<Path>, visits: seq<Visit>)
    requires AllNoted(root, paths, visits)
    ensures EdgesAt(root, Filter(Calling(root), paths), Edges(visits))
    ensures SumBy(OthersIn, visits) == SumBy(OthersAt(root), paths)
  {
    if paths != [] {
      hide Notes, EdgeAt, Calls, NodeAt;
      var n := |paths| - 1;
      NotedEdges(root, paths[..n], visits[..n]);
      NotedEdge(root, paths[n], visits[n]);
      if !Calls(root, paths[n]) {
        FilterSkips(Calling(root), paths);
        assert Edges(visits) == Edges(visits[..n]);
      }
    }
  }

  /** The calling positions, in the order of the edges. */
  function CallPositions(root: Ast): seq<Path> { Filter(Calling(root), Positions(root, [])) }

  /** The edges stand one for one for the nodes that call a predicate, each with the
      innermost `||` around its node; the other sites are added up over all nodes. */
  lemma {:induction false} EdgesArePositions(root: Ast)
    ensures Distinct(CallPositions(root)) && forall p :: p in CallPositions(root) <==> Calls(root, p)
    ensures EdgesAt(root, CallPositions(root), Edges(Walk(root, [], [])))
    ensures Distinct(Positions(root, [])) && forall p :: p in Positions(root, []) <==> NodeAt(root, p).Some?
    ensures OtherCount(root) == SumBy(OthersAt(root), Positions(root, []))
  {
    PositionsMeaning(root, []);
    forall p: Path ensures Beneath(root, [], p) <==> NodeAt(root, p).Some? {
      assert p[0..] == p;
    }
    WalkNotes(root, root, [], []);
    hide Beneath, Positions, Walk, AllNoted;
    NotedEdges(root, Positions(root, []), Walk(root, [], []));
    FilterDistinct(Calling(root), Positions(root, []));
    forall p ensures p in CallPositions(root) <==> Calls(root, p) {
      FilterMember(Calling(root), Positions(root, []), p);
    }
  }

  lemma {:induction false} InnermostUnique(root: Ast, path: Path, a: Option<Path>, b: Option<Path>)
    requires Innermost(root, path, a) && Innermost(root, path, b)
    ensures a == b
  {
  }

  /** A critical and a priority call have this position as their innermost `||`. */
  ghost predicate LadderHere(root: Ast, o: Path) {
    && (exists q :: CallAt(root, q, CriticalCall) && Innermost(root, q, Some(o)))
    && (exists r :: CallAt(root, r, PriorityCall) && Innermost(root, r, Some(o)))
  }

  /** A critical or priority call directly under a ladder. */
  ghost predicate OnLadder(root: Ast, p: Path) {
    && (CallAt(root, p, CriticalCall) || CallAt(root, p, PriorityCall))
    && exists o :: Innermost(root, p, Some(o)) && LadderHere(root, o)
  }

  lemma {:induction false} EdgeUnder(root: Ast, path: Path, edge: Edge, o: Path)
    requires EdgeAt(root, path, edge)
    ensures edge.orExpression == Some(o) <==> Innermost(root, path, Some(o))
    ensures forall kind :: CallAt(root, path, kind) <==> edge.kind == kind
  {
    if Innermost(root, path, Some(o)) {
      InnermostUnique(root, path, Some(o), edge.orExpression);
    }
  }

  /** The edges of a kind under an expression, as positions. */
  lemma {:induction false} KindPositions(root: Ast, o: Path, kind: Kind)
    ensures HasKind(Edges(Walk(root, [], [])), o, kind)
       <==> exists q :: CallAt(root, q, kind) && Innermost(root, q, Some(o))
  {
    hide Innermost, Walk, Edges, Positions, Filter, CallPositions;
    EdgesArePositions(root);
    var edges, calls := Edges(Walk(root, [], [])), CallPositions(root);
    forall i | 0 <= i < |edges|
      ensures edges[i].orExpression == Some(o) <==> Innermost(root, calls[i], Some(o))
      ensures edges[i].kind == kind <==> CallAt(root, calls[i], kind)
    {
      EdgeUnder(root, calls[i], edges[i], o);
    }
    if q :| CallAt(root, q, kind) && Innermost(root, q, Some(o)) {
      assert Calls(root, q);
      var i :| 0 <= i < |calls| && calls[i] == q;
      assert i in Under(edges, o);
    }
    if HasKind(edges, o, kind) {
      var i :| i in Under(edges, o) && edges[i].kind == kind;
      assert CallAt(root, calls[i], kind) && Innermost(root, calls[i], Some(o));
    }
  }

  lemma {:induction false} LadderPositions(root: Ast, o: Path)
    ensures IsLadder(Edges(Walk(root, [], [])), o) <==> LadderHere(root, o)
  {
    hide Walk, Edges, HasKind;
    KindPositions(root, o, CriticalCall);
    KindPositions(root, o, PriorityCall);
  }

  lemma {:induction false} SuppressedPositions(root: Ast, i: nat)
    requires i < |Edges(Walk(root, [], []))| == |CallPositions(root)|
    ensures Suppressed(Edges(Walk(root, [], [])), i) <==> OnLadder(root, CallPositions(root)[i])
  {
    hide Walk, Edges, CallPositions, LadderHere, IsLadder, Innermost, EdgeAt;
    var edge, path := Edges(Walk(root, [], []))[i], CallPositions(root)[i];
    EdgesArePositions(root);
    forall o
      ensures edge.orExpression == Some(o) <==> Innermost(root, path, Some(o))
      ensures IsLadder(Edges(Walk(root, [], [])), o) <==> LadderHere(root, o)
    {
      EdgeUnder(root, path, edge, o);
      LadderPositions(root, o);
    }
    EdgeUnder(root, path, edge, []);
  }

  lemma {:induction false} ImageSize(s: seq<Path>, indexes: set<nat>)
    requires Distinct(s) && forall i :: i in indexes ==> i < |s|
    ensures |set i | i in indexes :: s[i]| == |indexes|
  {
    var image := set i | i in indexes :: s[i];
    if indexes == {} {
      assert image == {};
    } else {
      var i :| i in indexes;
      var rest := indexes - {i};
      ImageSize(s, rest);
      assert image == (set k | k in rest :: s[k]) + {s[i]};
      assert s[i] !in (set k | k in rest :: s[k]);
    }
  }

  /** The calls directly under a ladder, and the ladders. */
  ghost function LadderCalls(root: Ast): set<Path> { set p | p in CallPositions(root) && OnLadder(root, p) }

  ghost function Ladders(root: Ast): set<Path> { set o | o in Positions(root, []) && LadderHere(root, o) }

  lemma {:induction false} SuppressedAreCalls(root: Ast)
    ensures |SuppressedEdges(Edges(Walk(root, [], [])))| == |LadderCalls(root)|
  {
    hide Walk, Edges, Filter, OnLadder, Suppressed;
    EdgesArePositions(root);
    var edges, calls := Edges(Walk(root, [], [])), CallPositions(root);
    forall i: nat | i < |edges| ensures Suppressed(edges, i) <==> OnLadder(root, calls[i]) {
      SuppressedPositions(root, i);
    }
    var indexes := SuppressedEdges(edges);
    ImageSize(calls, indexes);
    forall p ensures p in LadderCalls(root) <==> p in (set i | i in indexes :: calls[i]) {
      if p in LadderCalls(root) {
        var i :| 0 <= i < |calls| && calls[i] == p;
        assert i in indexes;
      }
    }
    assert LadderCalls(root) == set i | i in indexes :: calls[i];
  }

  lemma {:induction false} LaddersAreExpressions(root: Ast)
    ensures LadderExpressions(Edges(Walk(root, [], []))) == Ladders(root)
  {
    hide Walk, Edges, Positions, IsLadder;
    EdgesArePositions(root);
    var edges := Edges(Walk(root, [], []));
    forall o ensures o in LadderExpressions(edges) <==> o in Ladders(root) {
      LadderPositions(root, o);
      if LadderHere(root, o) {
        assert OrAt(root, o);
        LadderIsUnder(edges, o);
      }
    }
  }

  /** The census of a file, on the positions of its tree: a site for every call and every
      other site, but only one for all the calls directly under a ladder. */
  lemma {:induction false} CensusByPositions(root: Ast)
    ensures EdgeCount(root) == |CallPositions(root)|
    ensures OtherCount(root) == SumBy(OthersAt(root), Positions(root, []))
    ensures CollapsedCount(root) == |LadderCalls(root)| - |Ladders(root)|
    ensures SiteCount(root)
         == |CallPositions(root)| - |LadderCalls(root)| + |Ladders(root)| + OtherCount(root)
  {
    hide Walk, Edges, Positions, CallPositions, LadderCalls, Ladders;
    EdgesArePositions(root);
    SuppressedAreCalls(root);
    LaddersAreExpressions(root);
  }

  // ---------- the whole census ----------

  function AddCensus(a: FileCensus, b: FileCensus): FileCensus {
    FileCensus(a.siteCount + b.siteCount, a.predicateEdgeCount + b.predicateEdgeCount,
               a.otherSiteCount + b.otherSiteCount, a.collapsedLadderEdges + b.collapsedLadderEdges)
  }

  ghost function Added(files: seq<Ast>): FileCensus {
    if files == [] then FileCensus(0, 0, 0, 0)
    else AddCensus(Added(files[..|files| - 1]), CensusOf(files[|files| - 1]))
  }

  lemma {:induction false} AddedSums(files: seq<Ast>)
    ensures Accounted(Added(files))
    ensures Added(files) == FileCensus(SumBy(SiteCount, files), SumBy(EdgeCount, files),
                                       SumBy(OtherCount, files), SumBy(CollapsedCount, files))
  {
    if files != [] {
      AddedSums(files[..|files| - 1]);
      hide EdgeCount, OtherCount, CollapsedCount;
    }
  }

  /** The files added up: each of the four totals is the sum over the files, and the
      sites of all files are accounted for. */
  method CollectCensus(files: seq<Ast>) returns (census: FileCensus)
    ensures Accounted(census)
    ensures census.predicateEdgeCount == SumBy(EdgeCount, files) && census.otherSiteCount == SumBy(OtherCount, files)
    ensures census.collapsedLadderEdges == SumBy(CollapsedCount, files) && census.siteCount == SumBy(SiteCount, files)
  {
    hide CensusOf, Accounted, EdgeCount, OtherCount, CollapsedCount, SiteCount, Walk, Edges;
    census := FileCensus(0, 0, 0, 0);
    for i := 0 to |files|
      invariant census == Added(files[..i])
    {
      assert files[..i + 1][..i] == files[..i];
      var file, edges, suppressed, ladders := CollectFileCensus(files[i]);
      census := AddCensus(census, file);
    }
    assert files[..|files|] == files;
    AddedSums(files);
  }
}
