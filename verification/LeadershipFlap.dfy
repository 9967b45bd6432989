/** The leadership-flap census: leader changes between snapshot frames, their
    attribution to operations active around them, and the aggregated answer. */
module LeadershipFlap {
  import opened Lists

  /** A leader: a node, or no leader. */
  type Leader = Option<string>

  /** A node column of an operation row: missing, null or a node. */
  datatype NodeRef = Missing | Null | Node(id: string)

  datatype OpType = Replace | Remove | OtherType

  datatype Operation = Operation(
    id: string, partitionId: string, opType: OpType, source: NodeRef, target: NodeRef,
    createdAt: int, completedAt: Option<int>, updatedAt: int)

  datatype PartitionRow = PartitionRow(partitionId: string, leader: Leader)

  datatype Frame = Frame(timestamp: int, partitions: seq<PartitionRow>, operations: seq<Operation>)

  datatype Flip = Flip(partition: string, from: Leader, to: Leader, intervalStartMs: int, intervalEndMs: int)

  // ---------- flips ----------

  /** The leader of a partition in a list of rows: the last row counts. */
  function LeaderIn(rows: seq<PartitionRow>, p: string): Option<Leader> {
    if rows == [] then None
    else if rows[|rows| - 1].partitionId == p then Some(rows[|rows| - 1].leader)
    else LeaderIn(rows[..|rows| - 1], p)
  }

  /** The flip of one partition from its leaders in two frames. */
  function FlipFrom(prev: Option<Leader>, next: Option<Leader>, p: string, start: int, end: int): seq<Flip> {
    if prev.Some? && next.Some? && prev != next then [Flip(p, prev.value, next.value, start, end)] else []
  }

  /** The flip of a partition between two neighbouring frames. */
  function FlipBetween(a: Frame, b: Frame, p: string): seq<Flip> {
    FlipFrom(LeaderIn(a.partitions, p), LeaderIn(b.partitions, p), p, a.timestamp, b.timestamp)
  }

  /** The flips of a partition over all frames. */
  function FlipsOf(frames: seq<Frame>, p: string): seq<Flip> {
    if |frames| <= 1 then []
    else FlipsOf(frames[..|frames| - 1], p) + FlipBetween(frames[|frames| - 2], frames[|frames| - 1], p)
  }

  function On(p: string, flips: seq<Flip>): seq<Flip> {
    if flips == [] then []
    else On(p, flips[..|flips| - 1]) + if flips[|flips| - 1].partition == p then [flips[|flips| - 1]] else []
  }

  lemma {:induction false} OnConcat(p: string, a: seq<Flip>, b: seq<Flip>)
    ensures On(p, a + b) == On(p, a) + On(p, b)
  {
    if b == [] {
      assert a + b == a;
    } else {
      OnConcat(p, a, b[..|b| - 1]);
      assert (a + b)[..|a + b| - 1] == a + b[..|b| - 1];
    }
  }

  /** The leader map of one frame, with its keys in order of first appearance. */
  method LeadersOf(rows: seq<PartitionRow>) returns (keys: seq<string>, leaders: map<string, Leader>)
    ensures Distinct(keys) && forall p :: p in keys <==> p in leaders
    ensures forall p :: Get(leaders, p) == LeaderIn(rows, p)
  {
    keys, leaders := [], map[];
    for i := 0 to |rows|
      invariant Distinct(keys) && forall p :: p in keys <==> p in leaders
      invariant forall p :: Get(leaders, p) == LeaderIn(rows[..i], p)
    {
      assert rows[..i + 1][..i] == rows[..i];
      var row := rows[i];
      if row.partitionId !in leaders {
        DistinctAppend(keys, row.partitionId);
        keys := keys + [row.partitionId];
      }
      leaders := leaders[row.partitionId := row.leader];
    }
    assert rows[..|rows|] == rows;
  }

  lemma {:induction false} OnAppend(p: string, flips: seq<Flip>, flip: Flip)
    ensures On(p, flips + [flip]) == On(p, flips) + if flip.partition == p then [flip] else []
  {
    assert (flips + [flip])[..|flips|] == flips;
  }

  /** The flips of the listed partitions between two leader maps. */
  function FlipsFor(
    keys: seq<string>, prev: map<string, Leader>, next: map<string, Leader>, start: int, end: int): seq<Flip> {
    if keys == [] then []
    else
      var p := keys[|keys| - 1];
      FlipsFor(keys[..|keys| - 1], prev, next, start, end) + FlipFrom(Get(prev, p), Get(next, p), p, start, end)
  }

  lemma {:induction false} FlipsForOne(
    p: string, keys: seq<string>, prev: map<string, Leader>, next: map<string, Leader>,
                                       start: int, end: int)
    requires Distinct(keys)
    ensures On(p, FlipsFor(keys, prev, next, start, end))
         == if p in keys then FlipFrom(Get(prev, p), Get(next, p), p, start, end) else []
  {
    if keys != [] {
      var init, q := keys[..|keys| - 1], keys[|keys| - 1];
      FlipsForOne(p, init, prev, next, start, end);
      var flip := FlipFrom(Get(prev, q), Get(next, q), q, start, end);
      OnConcat(p, FlipsFor(init, prev, next, start, end), flip);
      OnOwn(p, q, Get(prev, q), Get(next, q), start, end);
      assert p in keys <==> p in init || p == q;
      assert q !in init;
    }
  }

  lemma {:induction false} OnOwn(p: string, q: string, prev: Option<Leader>, next: Option<Leader>, start: int, end: int)
    ensures On(p, FlipFrom(prev, next, q, start, end)) == if p == q then FlipFrom(prev, next, q, start, end) else []
  {
    var flips := FlipFrom(prev, next, q, start, end);
    if flips != [] {
      assert flips == [] + [flips[0]];
      OnAppend(p, [], flips[0]);
    }
  }

  method FrameFlips(
    prevLeaders: map<string, Leader>, keys: seq<string>, leaders: map<string, Leader>, start: int, end: int)
    returns (flips: seq<Flip>)
    requires forall p :: p in keys ==> p in leaders
    ensures flips == FlipsFor(keys, prevLeaders, leaders, start, end)
  {
    flips := [];
    for i := 0 to |keys|
      invariant flips == FlipsFor(keys[..i], prevLeaders, leaders, start, end)
    {
      assert keys[..i + 1][..i] == keys[..i];
      var p := keys[i];
      if p in prevLeaders && prevLeaders[p] != leaders[p] {
        flips := flips + [Flip(p, prevLeaders[p], leaders[p], start, end)];
      }
    }
    assert keys[..|keys|] == keys;
  }

  /** The extracted flips are, for every partition, its leader changes between
      neighbouring frames. */
  method ExtractFlips(frames: seq<Frame>) returns (flips: seq<Flip>)
    ensures forall p :: On(p, flips) == FlipsOf(frames, p)
  {
    flips := [];
    if |frames| == 0 {
      return;
    }
    var prevKeys, prevLeaders := LeadersOf(frames[0].partitions);
    for i := 1 to |frames|
      invariant forall p :: On(p, flips) == FlipsOf(frames[..i], p)
      invariant forall p :: Get(prevLeaders, p) == LeaderIn(frames[i - 1].partitions, p)
    {
      var keys, leaders := LeadersOf(frames[i].partitions);
      var more := FrameFlips(prevLeaders, keys, leaders, frames[i - 1].timestamp, frames[i].timestamp);
      assert frames[..i + 1][..i] == frames[..i];
      forall p ensures On(p, flips + more) == FlipsOf(frames[..i + 1], p) {
        OnConcat(p, flips, more);
        FlipsForOne(p, keys, prevLeaders, leaders, frames[i - 1].timestamp, frames[i].timestamp);
        assert Get(leaders, p) == LeaderIn(frames[i].partitions, p);
      }
      flips := flips + more;
      prevLeaders := leaders;
    }
    assert frames[..|frames|] == frames;
  }

  // ---------- replaying the flips ----------

  /** The leader after applying flips in order. */
  function Replay(start: Leader, flips: seq<Flip>): Leader {
    if flips == [] then start else flips[|flips| - 1].to
  }

  /** The leader of a partition in the latest frame that lists it. */
  function LatestLeader(frames: seq<Frame>, p: string): Option<Leader> {
    if frames == [] then None
    else
      var here := LeaderIn(frames[|frames| - 1].partitions, p);
      if here.Some? then here else LatestLeader(frames[..|frames| - 1], p)
  }

  /** The leader of a partition in the first frame that lists it. */
  function FirstLeader(frames: seq<Frame>, p: string): Option<Leader> {
    if frames == [] then None
    else
      var before := FirstLeader(frames[..|frames| - 1], p);
      if before.Some? then before else LeaderIn(frames[|frames| - 1].partitions, p)
  }

  lemma {:induction false} SeenOrNot(frames: seq<Frame>, p: string)
    ensures FirstLeader(frames, p).Some? <==> LatestLeader(frames, p).Some?
    ensures FirstLeader(frames, p).None? ==> FlipsOf(frames, p) == []
  {
    if frames != [] {
      SeenOrNot(frames[..|frames| - 1], p);
      if |frames| > 1 {
        assert frames[..|frames| - 1][|frames| - 2] == frames[|frames| - 2];
      }
    }
  }

  /** Replaying the flips so far from the first leader gives the latest leader. */
  ghost predicate InStep(frames: seq<Frame>, p: string) {
    FirstLeader(frames, p).Some? ==>
      LatestLeader(frames, p) == Some(Replay(FirstLeader(frames, p).value, FlipsOf(frames, p)))
  }

  /** The replay is right in every frame. */
  ghost predicate ReplaysFaithfully(frames: seq<Frame>, p: string) {
    forall k :: 0 <= k <= |frames| ==> InStep(frames[..k], p)
  }

  /** When the partition comes back after frames that do not list it, its leader is
      the one from before. */
  ghost predicate UnchangedAcrossGaps(frames: seq<Frame>, p: string) {
    forall k :: 1 <= k < |frames| ==> ReturnsUnchanged(frames, p, k)
  }

  ghost predicate ReturnsUnchanged(frames: seq<Frame>, p: string, k: int)
    requires 1 <= k < |frames|
  {
    LeaderIn(frames[k - 1].partitions, p).None? && LeaderIn(frames[k].partitions, p).Some?
    && LatestLeader(frames[..k], p).Some? ==>
      LeaderIn(frames[k].partitions, p) == LatestLeader(frames[..k], p)
  }

  /** One frame more stays in step exactly when the partition does not come back
      with another leader. */
  lemma {:induction false} StepInStep(frames: seq<Frame>, p: string)
    requires frames != [] && InStep(frames[..|frames| - 1], p)
    ensures InStep(frames, p) <==> (|frames| > 1 ==> ReturnsUnchanged(frames, p, |frames| - 1))
  {
    var init, last := frames[..|frames| - 1], frames[|frames| - 1];
    SeenOrNot(init, p);
    if |frames| > 1 {
      var prev := frames[|frames| - 2];
      assert init[|init| - 1] == prev;
      assert FlipsOf(frames, p) == FlipsOf(init, p) + FlipBetween(prev, last, p);
    }
  }

  lemma {:induction false} ReturnsLocal(frames: seq<Frame>, p: string, n: nat, k: int)
    requires 1 <= k < n <= |frames|
    ensures ReturnsUnchanged(frames[..n], p, k) <==> ReturnsUnchanged(frames, p, k)
  {
    assert frames[..n][..k] == frames[..k];
  }

  /** The flips reproduce the leader in every frame exactly when no change hides in a
      gap; in particular when every frame lists the partition. */
  lemma {:induction false} ReplayMeaning(frames: seq<Frame>, p: string)
    ensures ReplaysFaithfully(frames, p) <==> UnchangedAcrossGaps(frames, p)
  {
    if frames == [] {
      assert frames[..0] == [];
    } else {
      hide InStep, ReturnsUnchanged;
      var n := |frames| - 1;
      var init := frames[..n];
      ReplayMeaning(init, p);
      assert forall k :: 0 <= k <= n ==> init[..k] == frames[..k];
      assert frames[..|frames|] == frames && init[..n] == init;
      assert ReplaysFaithfully(frames, p) <==> ReplaysFaithfully(init, p) && InStep(frames, p);
      forall k | 1 <= k < n ensures ReturnsUnchanged(init, p, k) <==> ReturnsUnchanged(frames, p, k) {
        ReturnsLocal(frames, p, n, k);
      }
      if InStep(init, p) {
        StepInStep(frames, p);
      }
    }
  }

  lemma {:induction false} PresentEverywhere(frames: seq<Frame>, p: string)
    requires forall k :: 0 <= k < |frames| ==> LeaderIn(frames[k].partitions, p).Some?
    ensures ReplaysFaithfully(frames, p)
  {
    ReplayMeaning(frames, p);
  }

  /** Each flip starts from the leader the previous one left, and changes it. */
  ghost predicate Chained(start: Leader, flips: seq<Flip>) {
    forall i :: 0 <= i < |flips| ==> flips[i].from == Replay(start, flips[..i]) && flips[i].to != flips[i].from
  }

  lemma {:induction false} ChainGrows(start: Leader, flips: seq<Flip>, f: Flip)
    requires Chained(start, flips) && f.from == Replay(start, flips) && f.to != f.from
    ensures Chained(start, flips + [f])
  {
    hide Replay;
    var all := flips + [f];
    forall i | 0 <= i < |all| ensures all[i].from == Replay(start, all[..i]) && all[i].to != all[i].from {
      assert all[..i] == flips[..i];
      if i < |flips| {
        assert all[i] == flips[i];
      } else {
        assert flips[..i] == flips;
      }
    }
  }

  lemma {:induction false} FaithfulInit(frames: seq<Frame>, p: string)
    requires frames != [] && ReplaysFaithfully(frames, p)
    ensures ReplaysFaithfully(frames[..|frames| - 1], p) && InStep(frames[..|frames| - 1], p)
  {
    hide InStep;
    var init := frames[..|frames| - 1];
    assert forall k :: 0 <= k <= |init| ==> init[..k] == frames[..k];
    assert init[..|init|] == init;
  }

  /** One frame more adds no flip, or one that starts at the leader so far. */
  lemma {:induction false} NextFlip(frames: seq<Frame>, p: string) returns (f: Option<Flip>)
    requires |frames| > 1 && InStep(frames[..|frames| - 1], p) && FirstLeader(frames[..|frames| - 1], p).Some?
    ensures var init := frames[..|frames| - 1];
            match f
            case None => FlipsOf(frames, p) == FlipsOf(init, p)
            case Some(flip) =>
              && FlipsOf(frames, p) == FlipsOf(init, p) + [flip]
              && flip.from == Replay(FirstLeader(init, p).value, FlipsOf(init, p)) && flip.to != flip.from
  {
    var init, prev, last := frames[..|frames| - 1], frames[|frames| - 2], frames[|frames| - 1];
    SeenOrNot(init, p);
    assert init[|init| - 1] == prev;
    var between := FlipBetween(prev, last, p);
    assert FlipsOf(frames, p) == FlipsOf(init, p) + between;
    if between == [] {
      f := None;
    } else {
      f := Some(between[0]);
      assert between == [between[0]];
    }
  }

  lemma {:induction false} FlipsChain(frames: seq<Frame>, p: string)
    requires ReplaysFaithfully(frames, p) && FirstLeader(frames, p).Some?
    ensures Chained(FirstLeader(frames, p).value, FlipsOf(frames, p))
  {
    var init := frames[..|frames| - 1];
    FaithfulInit(frames, p);
    SeenOrNot(init, p);
    if FirstLeader(init, p).Some? {
      var f := NextFlip(frames, p);
      hide ReplaysFaithfully, InStep, Chained, FlipsOf;
      FlipsChain(init, p);
      if f.Some? {
        ChainGrows(FirstLeader(init, p).value, FlipsOf(init, p), f.value);
      }
    } else {
      FirstListing(frames, p);
    }
  }

  lemma {:induction false} FirstListing(frames: seq<Frame>, p: string)
    requires frames != [] && FirstLeader(frames[..|frames| - 1], p).None?
    ensures FlipsOf(frames, p) == []
  {
    var init := frames[..|frames| - 1];
    SeenOrNot(init, p);
    if |frames| > 1 {
      assert init[|init| - 1] == frames[|frames| - 2];
    }
  }

  /** A partition that is missing from one frame and comes back with another leader: the
      change is in no flip, and the replay goes wrong. */
  lemma {:induction false} GapHidesChange(p: string, a: Leader, b: Leader, ops: seq<Operation>)
    requires a != b
    ensures var frames := [Frame(0, [PartitionRow(p, a)], ops), Frame(1, [], ops), Frame(2, [PartitionRow(p, b)], ops)];
            FlipsOf(frames, p) == [] && !ReplaysFaithfully(frames, p)
  {
    var f0, f1, f2 := Frame(0, [PartitionRow(p, a)], ops), Frame(1, [], ops), Frame(2, [PartitionRow(p, b)], ops);
    var frames := [f0, f1, f2];
    assert LeaderIn(f0.partitions, p) == Some(a) && LeaderIn(f1.partitions, p) == None;
    assert LeaderIn(f2.partitions, p) == Some(b);
    assert frames[..2] == [f0, f1] && [f0, f1][..1] == [f0];
    assert LatestLeader([f0], p) == Some(a) && LatestLeader(frames[..2], p) == Some(a);
    assert FlipsOf([f0], p) == [] && FlipsOf([f0, f1], p) == [];
    assert !ReturnsUnchanged(frames, p, 2);
    ReplayMeaning(frames, p);
  }

  // ---------- operations ----------

  function Rows(frames: seq<Frame>): seq<Operation> {
    if frames == [] then [] else Rows(frames[..|frames| - 1]) + frames[|frames| - 1].operations
  }

  /** The row kept for an identity: the last one with the greatest update time. */
  function Kept(rows: seq<Operation>, id: string): Option<Operation> {
    if rows == [] then None
    else
      var prior, op := Kept(rows[..|rows| - 1], id), rows[|rows| - 1];
      if op.id == id && (prior.None? || op.updatedAt >= prior.value.updatedAt) then Some(op) else prior
  }

  /** Row `i` has the greatest update time of its identity, and is the last to have it. */
  ghost predicate LatestRow(rows: seq<Operation>, id: string, i: int) {
    && 0 <= i < |rows| && rows[i].id == id
    && (forall j :: 0 <= j < i && rows[j].id == id ==> rows[j].updatedAt <= rows[i].updatedAt)
    && (forall j :: i < j < |rows| && rows[j].id == id ==> rows[j].updatedAt < rows[i].updatedAt)
  }

  lemma {:induction false} LatestRowGrows(rows: seq<Operation>, id: string, i: int)
    requires rows != [] && LatestRow(rows[..|rows| - 1], id, i)
    ensures var n := |rows| - 1;
            LatestRow(rows, id, if rows[n].id == id && rows[n].updatedAt >= rows[i].updatedAt then n else i)
  {
    var init := rows[..|rows| - 1];
    assert forall j :: 0 <= j < |init| ==> init[j] == rows[j];
    assert forall j :: 0 <= j < |init| && init[j].id == id ==> init[j].updatedAt <= init[i].updatedAt;
  }

  lemma {:induction false} KeptIsLatest(rows: seq<Operation>, id: string)
    ensures Kept(rows, id).Some? ==> exists i :: LatestRow(rows, id, i) && rows[i] == Kept(rows, id).value
    ensures Kept(rows, id).None? ==> forall i :: 0 <= i < |rows| ==> rows[i].id != id
  {
    if rows != [] {
      var init, n := rows[..|rows| - 1], |rows| - 1;
      KeptIsLatest(init, id);
      assert forall j :: 0 <= j < n ==> init[j] == rows[j];
      if Kept(init, id).Some? {
        var i :| LatestRow(init, id, i) && init[i] == Kept(init, id).value;
        LatestRowGrows(rows, id, i);
      } else if rows[n].id == id {
        assert LatestRow(rows, id, n);
      }
    }
  }

  /** One row per operation, in order of first appearance. */
  method CollectOperations(frames: seq<Frame>) returns (ids: seq<string>, byId: map<string, Operation>)
    ensures Distinct(ids) && forall id :: id in ids <==> id in byId
    ensures forall id :: Get(byId, id) == Kept(Rows(frames), id)
  {
    ids, byId := [], map[];
    for f := 0 to |frames|
      invariant Distinct(ids) && forall id :: id in ids <==> id in byId
      invariant forall id :: Get(byId, id) == Kept(Rows(frames[..f]), id)
    {
      assert frames[..f + 1][..f] == frames[..f];
      var ops := frames[f].operations;
      ghost var before := Rows(frames[..f]);
      assert before + ops[..0] == before;
      for i := 0 to |ops|
        invariant Distinct(ids) && forall id :: id in ids <==> id in byId
        invariant forall id :: Get(byId, id) == Kept(before + ops[..i], id)
      {
        var op := ops[i];
        assert (before + ops[..i + 1])[..|before + ops[..i + 1]| - 1] == before + ops[..i];
        assert Get(byId, op.id) == Kept(before + ops[..i], op.id);
        if op.id !in byId || op.updatedAt >= byId[op.id].updatedAt {
          if op.id !in byId {
            DistinctAppend(ids, op.id);
            ids := ids + [op.id];
          }
          byId := byId[op.id := op];
        }
      }
      assert ops[..|ops|] == ops;
    }
    assert frames[..|frames|] == frames;
  }

  // ---------- attribution ----------

  datatype FlipClass =
    | SpontaneousLikely | Ambiguous | DeliberateStepdownSuccession | CounterDeliberateRegain | DeliberateReplacement

  /** Strict equality of a node column with a leader. */
  predicate Names(ref: NodeRef, leader: Leader) {
    (ref == Null && leader == None) || (ref.Node? && leader == Some(ref.id))
  }

  predicate Affects(op: Operation) { op.opType == Replace || op.opType == Remove }

  predicate ActiveIn(op: Operation, fromMs: int, toMs: int) {
    Affects(op) && op.createdAt <= toMs && (op.completedAt.None? || op.completedAt.value >= fromMs)
  }

  predicate ActiveAround(op: Operation, flip: Flip, window: int) {
    op.partitionId == flip.partition && ActiveIn(op, flip.intervalStartMs - window, flip.intervalEndMs + window)
  }

  function ActiveOps(ops: seq<Operation>, flip: Flip, window: int): seq<Operation> {
    Filter((op: Operation) => ActiveAround(op, flip, window), ops)
  }

  function ClassifyFlip(flip: Flip, ops: seq<Operation>, window: int): FlipClass {
    var active := ActiveOps(ops, flip, window);
    if |active| == 0 then SpontaneousLikely
    else if exists op :: op in active && op.opType == Replace && Names(op.target, flip.to) then DeliberateReplacement
    else if exists op :: op in active && Names(op.source, flip.to) then CounterDeliberateRegain
    else if exists op :: op in active && Names(op.source, flip.from) then DeliberateStepdownSuccession
    else Ambiguous
  }

  predicate IsDrainSource(ops: seq<Operation>, node: string, fromMs: int, toMs: int) {
    exists op :: op in ops && op.source == Node(node) && ActiveIn(op, fromMs, toMs)
  }

  predicate GainerDrains(flip: Flip, ops: seq<Operation>, window: int) {
    flip.to.Some? && IsDrainSource(ops, flip.to.value, flip.intervalStartMs - window, flip.intervalEndMs + window)
  }

  /** How strongly a flip is attributed. */
  function Rank(c: FlipClass): nat {
    match c
    case SpontaneousLikely => 0
    case Ambiguous => 1
    case DeliberateStepdownSuccession => 2
    case CounterDeliberateRegain => 3
    case DeliberateReplacement => 4
  }

  lemma {:induction false} ActiveMember(ops: seq<Operation>, flip: Flip, window: int, op: Operation)
    ensures op in ActiveOps(ops, flip, window) <==> op in ops && ActiveAround(op, flip, window)
  {
    FilterMember((o: Operation) => ActiveAround(o, flip, window), ops, op);
  }

  // What the classes mean, on the recorded operations.

  /** Replaces or removes a replica, was created by the end of the interval and was not
      completed before its start, where the interval reaches out by the window. */
  ghost predicate Overlaps(op: Operation, flip: Flip, window: int) {
    && op.opType in {Replace, Remove}
    && op.createdAt - window <= flip.intervalEndMs
    && match op.completedAt case None => true case Some(at) => flip.intervalStartMs <= at + window
  }

  /** The node column holds the leader: its id, or null where the partition has none. */
  ghost predicate Holds(ref: NodeRef, leader: Leader) {
    match leader case None => ref == Null case Some(id) => ref == Node(id)
  }

  ghost predicate Concerned(flip: Flip, ops: seq<Operation>, window: int) {
    exists op :: op in ops && op.partitionId == flip.partition && Overlaps(op, flip, window)
  }

  /** An operation puts the replica where the leader went. */
  ghost predicate Replaced(flip: Flip, ops: seq<Operation>, window: int) {
    exists op :: op in ops && op.partitionId == flip.partition && Overlaps(op, flip, window)
                 && op.opType == Replace && Holds(op.target, flip.to)
  }

  /** An operation takes the replica from a node: the one that gained, or the one that lost. */
  ghost predicate Drained(leader: Leader, flip: Flip, ops: seq<Operation>, window: int) {
    exists op :: op in ops && op.partitionId == flip.partition && Overlaps(op, flip, window)
                 && Holds(op.source, leader)
  }

  lemma {:induction false} ActiveMeaning(flip: Flip, ops: seq<Operation>, window: int, op: Operation)
    ensures op in ActiveOps(ops, flip, window)
       <==> op in ops && op.partitionId == flip.partition && Overlaps(op, flip, window)
    ensures forall leader :: Names(op.source, leader) <==> Holds(op.source, leader)
    ensures forall leader :: Names(op.target, leader) <==> Holds(op.target, leader)
  {
    hide ActiveOps;
    ActiveMember(ops, flip, window, op);
  }

  /** Each class exactly. */
  lemma {:induction false} ClassExactly(flip: Flip, ops: seq<Operation>, window: int)
    ensures var c := ClassifyFlip(flip, ops, window);
            var replaced, regained := Replaced(flip, ops, window), Drained(flip.to, flip, ops, window);
            var stepped := Drained(flip.from, flip, ops, window);
            && (c == SpontaneousLikely <==> !Concerned(flip, ops, window))
            && (c == DeliberateReplacement <==> replaced)
            && (c == CounterDeliberateRegain <==> regained && !replaced)
            && (c == DeliberateStepdownSuccession <==> stepped && !regained && !replaced)
            && (c == Ambiguous <==> Concerned(flip, ops, window) && !stepped && !regained && !replaced)
  {
    hide ActiveOps, Overlaps, Names, Holds;
    forall op
      ensures op in ActiveOps(ops, flip, window)
         <==> op in ops && op.partitionId == flip.partition && Overlaps(op, flip, window)
      ensures forall leader :: Names(op.source, leader) <==> Holds(op.source, leader)
      ensures forall leader :: Names(op.target, leader) <==> Holds(op.target, leader)
    {
      ActiveMeaning(flip, ops, window, op);
    }
    var active := ActiveOps(ops, flip, window);
    assert |active| > 0 ==> active[0] in active;
  }

  /** The gainer is being drained, on this or on any other partition. */
  lemma {:induction false} DrainGainExactly(flip: Flip, ops: seq<Operation>, window: int)
    ensures GainerDrains(flip, ops, window)
       <==> flip.to.Some? && exists op :: op in ops && Overlaps(op, flip, window) && op.source == Node(flip.to.value)
  {
    if op :| op in ops && Overlaps(op, flip, window) && flip.to.Some? && op.source == Node(flip.to.value) {
      assert ActiveIn(op, flip.intervalStartMs - window, flip.intervalEndMs + window);
    }
  }

  lemma {:induction false} ActiveGrows(ops: seq<Operation>, flip: Flip, window: int, wider: int, op: Operation)
    requires window <= wider && op in ActiveOps(ops, flip, window)
    ensures op in ActiveOps(ops, flip, wider)
  {
    ActiveMember(ops, flip, window, op);
    ActiveMember(ops, flip, wider, op);
  }

  /** Widening the join window never lowers the attribution of a flip. */
  lemma {:induction false} WideningRaises(flip: Flip, ops: seq<Operation>, window: int, wider: int)
    requires window <= wider
    ensures Rank(ClassifyFlip(flip, ops, window)) <= Rank(ClassifyFlip(flip, ops, wider))
    ensures GainerDrains(flip, ops, window) ==> GainerDrains(flip, ops, wider)
  {
    hide ActiveOps;
    forall op | op in ActiveOps(ops, flip, window) ensures op in ActiveOps(ops, flip, wider) {
      ActiveGrows(ops, flip, window, wider, op);
    }
    if |ActiveOps(ops, flip, window)| > 0 {
      assert ActiveOps(ops, flip, window)[0] in ActiveOps(ops, flip, wider);
    }
    if GainerDrains(flip, ops, window) {
      var op :| op in ops && op.source == Node(flip.to.value)
                && ActiveIn(op, flip.intervalStartMs - window, flip.intervalEndMs + window);
      assert ActiveIn(op, flip.intervalStartMs - wider, flip.intervalEndMs + wider);
    }
  }

  /** A regain against a drain, by a node, is a drain-source gain. */
  lemma {:induction false} RegainIsDrainGain(flip: Flip, ops: seq<Operation>, window: int)
    requires ClassifyFlip(flip, ops, window) == CounterDeliberateRegain && flip.to.Some?
    ensures GainerDrains(flip, ops, window)
  {
    hide ActiveOps;
    var op :| op in ActiveOps(ops, flip, window) && Names(op.source, flip.to);
    ActiveMember(ops, flip, window, op);
  }

  function AtLeast(rank: nat, ops: seq<Operation>, window: int): Flip -> bool {
    (flip: Flip) => Rank(ClassifyFlip(flip, ops, window)) >= rank
  }

  function DrainGain(ops: seq<Operation>, window: int): Flip -> bool {
    (flip: Flip) => flip.from.Some? && GainerDrains(flip, ops, window)
  }

  /** Over a whole run, widening the window moves flips up and adds drain gains. */
  lemma {:induction false} WideningShiftsCounts(
    flips: seq<Flip>, ops: seq<Operation>, window: int, wider: int, rank: nat)
    requires window <= wider
    ensures CountIf(AtLeast(rank, ops, window), flips) <= CountIf(AtLeast(rank, ops, wider), flips)
    ensures CountIf(DrainGain(ops, window), flips) <= CountIf(DrainGain(ops, wider), flips)
  {
    forall i | 0 <= i < |flips|
      ensures AtLeast(rank, ops, window)(flips[i]) ==> AtLeast(rank, ops, wider)(flips[i])
      ensures DrainGain(ops, window)(flips[i]) ==> DrainGain(ops, wider)(flips[i])
    {
      WideningRaises(flips[i], ops, window, wider);
    }
    CountMonotone(AtLeast(rank, ops, window), AtLeast(rank, ops, wider), flips);
    CountMonotone(DrainGain(ops, window), DrainGain(ops, wider), flips);
  }

  // ---------- one run ----------

  const CLASSES := {
    SpontaneousLikely, Ambiguous, DeliberateStepdownSuccession, CounterDeliberateRegain, DeliberateReplacement
  }

  type Counts = m: map<FlipClass, nat> | m.Keys == CLASSES witness map c | c in CLASSES :: 0

  datatype Judged = Judged(flip: Flip, cls: FlipClass, gainerIsDrainSource: bool, postRestartRegain: bool)

  predicate FromNull(j: Judged) { j.flip.from.None? }

  predicate RealFlip(j: Judged) { j.flip.from.Some? }

  predicate DrainSourceGain(j: Judged) { j.flip.from.Some? && j.gainerIsDrainSource }

  predicate RestartRegain(j: Judged) { j.flip.from.Some? && j.postRestartRegain }

  function InClass(c: FlipClass): Judged -> bool { (j: Judged) => j.cls == c }

  function Total(counts: Counts): nat {
    counts[SpontaneousLikely] + counts[Ambiguous] + counts[DeliberateStepdownSuccession]
    + counts[CounterDeliberateRegain] + counts[DeliberateReplacement]
  }

  method SummarizeCounts(flips: seq<Judged>) returns (counts: Counts)
    ensures forall c :: c in CLASSES ==> counts[c] == CountIf(InClass(c), flips)
    ensures Total(counts) == |flips|
  {
    counts := map c | c in CLASSES :: 0;
    for i := 0 to |flips|
      invariant forall c :: c in CLASSES ==> counts[c] == CountIf(InClass(c), flips[..i])
    {
      assert flips[..i + 1] == flips[..i] + [flips[i]];
      forall c
        ensures CountIf(InClass(c), flips[..i + 1])
             == CountIf(InClass(c), flips[..i]) + if flips[i].cls == c then 1 else 0
      {
        CountAppend(InClass(c), flips[..i], flips[i]);
      }
      AllClasses(flips[i].cls);
      counts := counts[flips[i].cls := counts[flips[i].cls] + 1];
    }
    assert flips[..|flips|] == flips;
    ClassesPartition(flips);
  }

  lemma {:induction false} AllClasses(c: FlipClass)
    ensures c in CLASSES
  {
  }

  lemma {:induction false} ClassesPartition(flips: seq<Judged>)
    ensures CountIf(InClass(SpontaneousLikely), flips) + CountIf(InClass(Ambiguous), flips)
          + CountIf(InClass(DeliberateStepdownSuccession), flips) + CountIf(InClass(CounterDeliberateRegain), flips)
          + CountIf(InClass(DeliberateReplacement), flips) == |flips|
  {
    if flips != [] {
      ClassesPartition(flips[..|flips| - 1]);
    }
  }

  datatype RunResult = RunResult(
    totalFlips: nat, bootstrapFills: nat, flipCounts: Counts,
    restartTotal: nat, restartCounts: Counts, drainTotal: nat, drainCounts: Counts)

  lemma {:induction false} FillsAndFlips(flips: seq<Judged>)
    ensures CountIf(FromNull, flips) + CountIf(RealFlip, flips) == |flips|
  {
    if flips != [] {
      FillsAndFlips(flips[..|flips| - 1]);
    }
  }

  /** What the numbers of one run satisfy. */
  ghost predicate Balanced(r: RunResult) {
    && Total(r.flipCounts) + r.bootstrapFills == r.totalFlips
    && Total(r.drainCounts) == r.drainTotal
    && Total(r.restartCounts) == r.restartTotal
  }

  method AnalyzeFlips(flips: seq<Judged>) returns (r: RunResult)
    ensures Balanced(r) && r.totalFlips == |flips|
    ensures r.bootstrapFills == CountIf(FromNull, flips)
    ensures r.drainTotal == CountIf(DrainSourceGain, flips) && r.restartTotal == CountIf(RestartRegain, flips)
    ensures forall c :: c in CLASSES ==> r.flipCounts[c] == CountIf(InClass(c), Filter(RealFlip, flips))
    ensures forall c :: c in CLASSES ==> r.restartCounts[c] == CountIf(InClass(c), Filter(RestartRegain, flips))
    ensures forall c :: c in CLASSES ==> r.drainCounts[c] == CountIf(InClass(c), Filter(DrainSourceGain, flips))
  {
    var restartRegains := Filter(RestartRegain, flips);
    var drainSourceGains := Filter(DrainSourceGain, flips);
    FilterLength(RestartRegain, flips);
    FilterLength(DrainSourceGain, flips);
    FilterLength(RealFlip, flips);
    FilterLength(FromNull, flips);
    FillsAndFlips(flips);
    var flipCounts := SummarizeCounts(Filter(RealFlip, flips));
    var restartCounts := SummarizeCounts(restartRegains);
    var drainCounts := SummarizeCounts(drainSourceGains);
    r := RunResult(|flips|, |Filter(FromNull, flips)|, flipCounts, |restartRegains|, restartCounts,
                   |drainSourceGains|, drainCounts);
  }

  /** The gainer is a restarted node, and gains at or after its restart boundary. */
  predicate PostRestart(flip: Flip, restarts: map<string, int>) {
    match flip.to
    case None => false
    case Some(node) => node in restarts && restarts[node] <= flip.intervalEndMs
  }

  /** The enrichment of the extracted flips. */
  method JudgeFlips(
    flips: seq<Flip>, ops: seq<Operation>, window: int, restarts: map<string, int>) returns (judged: seq<Judged>)
    ensures |judged| == |flips|
    ensures forall i :: 0 <= i < |flips| ==>
              && judged[i].flip == flips[i] && judged[i].cls == ClassifyFlip(flips[i], ops, window)
              && judged[i].gainerIsDrainSource == GainerDrains(flips[i], ops, window)
              && judged[i].postRestartRegain == PostRestart(flips[i], restarts)
    ensures forall i :: 0 <= i < |judged| && judged[i].cls == CounterDeliberateRegain && judged[i].flip.to.Some? ==>
              judged[i].gainerIsDrainSource
  {
    judged := [];
    for i := 0 to |flips|
      invariant |judged| == i
      invariant forall k :: 0 <= k < i ==>
                  && judged[k].flip == flips[k] && judged[k].cls == ClassifyFlip(flips[k], ops, window)
                  && judged[k].gainerIsDrainSource == GainerDrains(flips[k], ops, window)
                  && judged[k].postRestartRegain == PostRestart(flips[k], restarts)
    {
      var flip := flips[i];
      var regain := flip.to.Some? && flip.to.value in restarts && flip.intervalEndMs >= restarts[flip.to.value];
      judged := judged + [Judged(flip, ClassifyFlip(flip, ops, window), GainerDrains(flip, ops, window), regain)];
    }
    forall i | 0 <= i < |judged| && judged[i].cls == CounterDeliberateRegain && judged[i].flip.to.Some?
      ensures judged[i].gainerIsDrainSource
    {
      RegainIsDrainGain(flips[i], ops, window);
    }
  }

  function FrameTime(frame: Frame): int { frame.timestamp }

  /** One run from its frames to its numbers. */
  method AnalyzeRun(frames: seq<Frame>, window: int, restarts: map<string, int>)
    returns (flips: seq<Flip>, ops: seq<Operation>, r: RunResult)
    ensures forall p :: On(p, flips) == FlipsOf(SortBy(FrameTime, frames), p)
    ensures forall op :: op in ops <==> Kept(Rows(SortBy(FrameTime, frames)), op.id) == Some(op)
    ensures Balanced(r) && r.totalFlips == |flips|
    ensures r.bootstrapFills == CountIf(FillsBlank, flips)
    ensures r.drainTotal == CountIf(DrainGain(ops, window), flips)
    ensures r.restartTotal == CountIf(RestartGain(restarts), flips)
    ensures forall c :: c in CLASSES ==> r.restartCounts[c] == CountIf(RestartGainOf(c, ops, window, restarts), flips)
    ensures forall c :: c in CLASSES ==> r.flipCounts[c] == CountIf(RealFlipOf(c, ops, window), flips)
    ensures forall c :: c in CLASSES ==> r.drainCounts[c] == CountIf(DrainGainOf(c, ops, window), flips)
  {
    var sorted := SortBy(FrameTime, frames);
    flips := ExtractFlips(sorted);
    var ids, byId := CollectOperations(sorted);
    ops := [];
    for i := 0 to |ids|
      invariant |ops| == i && forall k :: 0 <= k < i ==> ops[k] == byId[ids[k]]
    {
      ops := ops + [byId[ids[i]]];
    }
    OperationsKept(Rows(sorted), ids, byId, ops);
    var judged := JudgeFlips(flips, ops, window, restarts);
    r := AnalyzeFlips(judged);
    DrainGainsCounted(flips, judged, ops, window);
    RestartsCounted(flips, judged, restarts);
    forall c | c in CLASSES
      ensures CountIf(InClass(c), Filter(RestartRegain, judged))
           == CountIf(RestartGainOf(c, ops, window, restarts), flips)
      ensures CountIf(InClass(c), Filter(RealFlip, judged)) == CountIf(RealFlipOf(c, ops, window), flips)
      ensures CountIf(InClass(c), Filter(DrainSourceGain, judged)) == CountIf(DrainGainOf(c, ops, window), flips)
    {
      ClassCounts(c, flips, judged, ops, window);
      RestartCounts(c, flips, judged, ops, window, restarts);
    }
  }

  predicate FillsBlank(flip: Flip) { flip.from.None? }

  function RestartGain(restarts: map<string, int>): Flip -> bool {
    (flip: Flip) => flip.from.Some? && PostRestart(flip, restarts)
  }

  function RestartGainOf(c: FlipClass, ops: seq<Operation>, window: int, restarts: map<string, int>): Flip -> bool {
    (flip: Flip) => flip.from.Some? && PostRestart(flip, restarts) && ClassifyFlip(flip, ops, window) == c
  }

  lemma {:induction false} RestartsCounted(flips: seq<Flip>, judged: seq<Judged>, restarts: map<string, int>)
    requires |judged| == |flips|
    requires forall i :: 0 <= i < |flips| ==>
               judged[i].flip == flips[i] && judged[i].postRestartRegain == PostRestart(flips[i], restarts)
    ensures CountIf(RestartRegain, judged) == CountIf(RestartGain(restarts), flips)
    ensures CountIf(FromNull, judged) == CountIf(FillsBlank, flips)
  {
    hide PostRestart, CountIf;
    SameCounts(RestartRegain, judged, RestartGain(restarts), flips);
    SameCounts(FromNull, judged, FillsBlank, flips);
  }

  lemma {:induction false} RestartCounts(
    c: FlipClass, flips: seq<Flip>, judged: seq<Judged>, ops: seq<Operation>, window: int, restarts: map<string, int>)
    requires |judged| == |flips|
    requires forall i :: 0 <= i < |flips| ==>
               && judged[i].flip == flips[i] && judged[i].cls == ClassifyFlip(flips[i], ops, window)
               && judged[i].postRestartRegain == PostRestart(flips[i], restarts)
    ensures CountIf(InClass(c), Filter(RestartRegain, judged))
         == CountIf(RestartGainOf(c, ops, window, restarts), flips)
  {
    hide ClassifyFlip, PostRestart, CountIf, Filter;
    CountFiltered(InClass(c), RestartRegain, judged);
    forall i | 0 <= i < |judged|
      ensures Both(InClass(c), RestartRegain)(judged[i]) == RestartGainOf(c, ops, window, restarts)(flips[i])
    {
      assert judged[i].flip == flips[i];
    }
    SameCounts(Both(InClass(c), RestartRegain), judged, RestartGainOf(c, ops, window, restarts), flips);
  }

  function RealFlipOf(c: FlipClass, ops: seq<Operation>, window: int): Flip -> bool {
    (flip: Flip) => flip.from.Some? && ClassifyFlip(flip, ops, window) == c
  }

  function DrainGainOf(c: FlipClass, ops: seq<Operation>, window: int): Flip -> bool {
    (flip: Flip) => flip.from.Some? && GainerDrains(flip, ops, window) && ClassifyFlip(flip, ops, window) == c
  }

  function Both<T>(p: T -> bool, q: T -> bool): T -> bool { (x: T) => q(x) && p(x) }

  lemma {:induction false} CountFiltered<T>(p: T -> bool, q: T -> bool, s: seq<T>)
    ensures CountIf(p, Filter(q, s)) == CountIf(Both(p, q), s)
  {
    if s != [] {
      var init, last := s[..|s| - 1], s[|s| - 1];
      CountFiltered(p, q, init);
      if q(last) {
        CountAppend(p, Filter(q, init), last);
      } else {
        FilterSkips(q, s);
      }
    }
  }

  lemma {:induction false} SameCounts<S, T>(p: S -> bool, s: seq<S>, q: T -> bool, t: seq<T>)
    requires |s| == |t| && forall i :: 0 <= i < |s| ==> p(s[i]) == q(t[i])
    ensures CountIf(p, s) == CountIf(q, t)
  {
    if s != [] {
      SameCounts(p, s[..|s| - 1], q, t[..|t| - 1]);
    }
  }

  lemma {:induction false} ClassCounts(
    c: FlipClass, flips: seq<Flip>, judged: seq<Judged>, ops: seq<Operation>, window: int)
    requires |judged| == |flips|
    requires forall i :: 0 <= i < |flips| ==>
               && judged[i].flip == flips[i] && judged[i].cls == ClassifyFlip(flips[i], ops, window)
               && judged[i].gainerIsDrainSource == GainerDrains(flips[i], ops, window)
    ensures CountIf(InClass(c), Filter(RealFlip, judged)) == CountIf(RealFlipOf(c, ops, window), flips)
    ensures CountIf(InClass(c), Filter(DrainSourceGain, judged)) == CountIf(DrainGainOf(c, ops, window), flips)
  {
    hide ClassifyFlip, GainerDrains, CountIf, Filter;
    CountFiltered(InClass(c), RealFlip, judged);
    CountFiltered(InClass(c), DrainSourceGain, judged);
    SameCounts(Both(InClass(c), RealFlip), judged, RealFlipOf(c, ops, window), flips);
    forall i | 0 <= i < |judged|
      ensures Both(InClass(c), DrainSourceGain)(judged[i]) == DrainGainOf(c, ops, window)(flips[i])
    {
      assert judged[i].flip == flips[i];
    }
    SameCounts(Both(InClass(c), DrainSourceGain), judged, DrainGainOf(c, ops, window), flips);
  }

  lemma {:induction false} OperationsKept(
    rows: seq<Operation>, ids: seq<string>, byId: map<string, Operation>, ops: seq<Operation>)
    requires forall id :: id in ids <==> id in byId
    requires forall id :: Get(byId, id) == Kept(rows, id)
    requires |ops| == |ids| && forall k :: 0 <= k < |ids| ==> ops[k] == byId[ids[k]]
    ensures forall op :: op in ops <==> Kept(rows, op.id) == Some(op)
  {
    forall op ensures op in ops <==> Kept(rows, op.id) == Some(op) {
      if op in ops {
        var k :| 0 <= k < |ops| && ops[k] == op;
        assert Get(byId, ids[k]) == Some(op);
        KeptIsLatest(rows, ids[k]);
      }
      if Kept(rows, op.id) == Some(op) {
        assert Get(byId, op.id) == Some(op);
        var k :| 0 <= k < |ids| && ids[k] == op.id;
        assert ops[k] == op;
      }
    }
  }

  lemma {:induction false} DrainGainsCounted(flips: seq<Flip>, judged: seq<Judged>, ops: seq<Operation>, window: int)
    requires |judged| == |flips|
    requires forall i :: 0 <= i < |flips| ==>
               judged[i].flip == flips[i] && judged[i].gainerIsDrainSource == GainerDrains(flips[i], ops, window)
    ensures CountIf(DrainSourceGain, judged) == CountIf(DrainGain(ops, window), flips)
  {
    if flips != [] {
      DrainGainsCounted(flips[..|flips| - 1], judged[..|judged| - 1], ops, window);
    }
  }

  // ---------- all runs ----------

  datatype Answer = NoDrainSourceGains | MostlyUndirected | MostlyDeliberate | Split

  function AddCounts(a: Counts, b: Counts): Counts { map c | c in CLASSES :: a[c] + b[c] }

  function Undirected(counts: Counts): nat {
    counts[SpontaneousLikely] + counts[CounterDeliberateRegain] + counts[Ambiguous]
  }

  function Deliberate(counts: Counts): nat {
    counts[DeliberateReplacement] + counts[DeliberateStepdownSuccession]
  }

  const NO_COUNTS: Counts := map c | c in CLASSES :: 0

  const NO_FLIPS := RunResult(0, 0, NO_COUNTS, 0, NO_COUNTS, 0, NO_COUNTS)

  function AddResults(a: RunResult, b: RunResult): RunResult {
    RunResult(a.totalFlips + b.totalFlips, a.bootstrapFills + b.bootstrapFills, AddCounts(a.flipCounts, b.flipCounts),
              a.restartTotal + b.restartTotal, AddCounts(a.restartCounts, b.restartCounts),
              a.drainTotal + b.drainTotal, AddCounts(a.drainCounts, b.drainCounts))
  }

  /** The runs added up. */
  function Combined(runs: seq<RunResult>): RunResult {
    if runs == [] then NO_FLIPS else AddResults(Combined(runs[..|runs| - 1]), runs[|runs| - 1])
  }

  lemma {:induction false} AddBalanced(a: RunResult, b: RunResult)
    requires Balanced(a) && Balanced(b)
    ensures Balanced(AddResults(a, b))
  {
  }

  /** What balances in every run balances over all runs. */
  lemma {:induction false} CombinedBalanced(runs: seq<RunResult>)
    requires forall i :: 0 <= i < |runs| ==> Balanced(runs[i])
    ensures Balanced(Combined(runs))
  {
    if runs != [] {
      hide AddResults, Balanced;
      CombinedBalanced(runs[..|runs| - 1]);
      AddBalanced(Combined(runs[..|runs| - 1]), runs[|runs| - 1]);
    }
  }

  /** Every class is either undirected or deliberate. */
  lemma {:induction false} UndirectedOrDeliberate(counts: Counts)
    ensures Undirected(counts) + Deliberate(counts) == Total(counts)
  {
  }

  method CombineRuns(runs: seq<RunResult>) returns (overall: RunResult)
    ensures overall == Combined(runs)
  {
    hide AddResults;
    overall := NO_FLIPS;
    for i := 0 to |runs|
      invariant overall == Combined(runs[..i])
    {
      assert runs[..i + 1][..i] == runs[..i];
      overall := AddResults(overall, runs[i]);
    }
    assert runs[..|runs|] == runs;
  }

  function AnswerOf(total: nat, undirected: nat, deliberate: nat): Answer {
    if total == 0 then NoDrainSourceGains
    else if undirected > deliberate then MostlyUndirected
    else if deliberate > undirected then MostlyDeliberate
    else Split
  }

  /** Over balanced runs: class counts and bootstrap fills make up the flips, the
      drain gains are undirected or deliberate, and the answer names the majority. */
  ghost predicate Census(overall: RunResult, answer: Answer) {
    var undirected, deliberate := Undirected(overall.drainCounts), Deliberate(overall.drainCounts);
    && Total(overall.flipCounts) + overall.bootstrapFills == overall.totalFlips
    && undirected + deliberate == overall.drainTotal
    && (answer == NoDrainSourceGains <==> overall.drainTotal == 0)
    && (answer == MostlyUndirected <==> 2 * undirected > overall.drainTotal)
    && (answer == MostlyDeliberate <==> 2 * deliberate > overall.drainTotal)
    && (answer == Split <==> overall.drainTotal > 0 && undirected == deliberate)
  }

  lemma {:induction false} BalancedCensus(overall: RunResult)
    requires Balanced(overall)
    ensures var undirected, deliberate := Undirected(overall.drainCounts), Deliberate(overall.drainCounts);
            Census(overall, AnswerOf(overall.drainTotal, undirected, deliberate))
  {
    UndirectedOrDeliberate(overall.drainCounts);
    hide Undirected, Deliberate, Total;
  }

  /** The totals of the census and its answer. */
  method BuildVerdict(runs: seq<RunResult>) returns (overall: RunResult, answer: Answer)
    ensures overall == Combined(runs)
    ensures (forall i :: 0 <= i < |runs| ==> Balanced(runs[i])) ==> Census(overall, answer)
  {
    hide Undirected, Deliberate, Balanced, Census;
    overall := CombineRuns(runs);
    var undirected, deliberate := Undirected(overall.drainCounts), Deliberate(overall.drainCounts);
    answer := AnswerOf(overall.drainTotal, undirected, deliberate);
    if forall i :: 0 <= i < |runs| ==> Balanced(runs[i]) {
      CombinedBalanced(runs);
      BalancedCensus(overall);
    }
  }
}
