/** Step 4 of the graph scripts: every ordered pair of incidents (earlier record first) is
    compared item by item on one attribute, and when the attribute similarity of the two
    records reaches the threshold a `SIMILAR_...` relationship is MERGEd between their
    Incident nodes, guarded by a MATCH of both incidents and both items, with the scores and
    the two items SET on it. */
module Linking {
  import opened Text
  import opened Records
  import opened PropertyGraph
  import opened IncidentIngest

  /** One similarity pass: the attribute whose items are paired and whose similarity gates the
      link, the label of that attribute's nodes, the relationship type, the property that
      carries the gating score, the other scores SET (property, attribute), and the two
      properties that carry the paired items. */
  datatype Linker = Linker(
    attr: string,
    nodeLabel: string,
    rel: string,
    gateProp: string,
    others: seq<(string, string)>,
    first: string,
    second: string)

  /** `>= 0.8` in both scripts. */
  const Threshold: real := 0.8

  function Gate(lk: Linker, sim: Oracle, r1: Record, r2: Record): real
  {
    AttributeSimilarity(sim, lk.attr, r1, r2)
  }

  /** The scores other than the gate, as properties. */
  function ScoreProps(others: seq<(string, string)>, sim: Oracle, r1: Record, r2: Record): (p: Props)
    ensures p.Keys == set k | 0 <= k < |others| :: others[k].0
  {
    if others == [] then map[]
    else
      var rest := ScoreProps(others[1..], sim, r1, r2);
      assert forall k | 1 <= k < |others| :: others[k].0 == others[1..][k - 1].0;
      rest[others[0].0 := Num(AttributeSimilarity(sim, others[0].1, r1, r2))]
  }

  /** The properties every link of the pass SETs. */
  function PropKeys(lk: Linker): set<string>
  {
    (set k | 0 <= k < |lk.others| :: lk.others[k].0) + {lk.gateProp, lk.first, lk.second}
  }

  /** What the relationship query SETs for items `t1` and `t2`. */
  function LinkProps(lk: Linker, sim: Oracle, r1: Record, r2: Record, t1: string, t2: string): (p: Props)
    ensures p.Keys == PropKeys(lk)
  {
    ScoreProps(lk.others, sim, r1, r2)[lk.gateProp := Num(Gate(lk, sim, r1, r2))]
      [lk.first := Str(t1)][lk.second := Str(t2)]
  }

  /** The link SETs the gating score and the two items under their own properties. */
  lemma LinkPropsItems(lk: Linker, sim: Oracle, r1: Record, r2: Record, t1: string, t2: string)
    requires lk.first != lk.second && lk.gateProp != lk.first && lk.gateProp != lk.second
    ensures LinkProps(lk, sim, r1, r2, t1, t2)[lk.gateProp] == Num(Gate(lk, sim, r1, r2))
    ensures LinkProps(lk, sim, r1, r2, t1, t2)[lk.first] == Str(t1)
    ensures LinkProps(lk, sim, r1, r2, t1, t2)[lk.second] == Str(t2)
  {
  }

  function PairEdge(lk: Linker, r1: Record, r2: Record): EdgeKey
  {
    EdgeKey(IncidentNode(r1.filename), lk.rel, IncidentNode(r2.filename))
  }

  /** The MATCH of the two incidents and the two items, then the MERGE and SET. */
  function LinkOp(lk: Linker, sim: Oracle, r1: Record, r2: Record, t1: string, t2: string): Op
  {
    MatchedEdgeMerge(
      {IncidentNode(r1.filename), IncidentNode(r2.filename), ValueNode(lk.nodeLabel, t1), ValueNode(lk.nodeLabel, t2)},
      PairEdge(lk, r1, r2),
      LinkProps(lk, sim, r1, r2, t1, t2))
  }

  /** The write issued for one pair of items: none below the threshold. */
  function Emit(lk: Linker, sim: Oracle, r1: Record, r2: Record, t1: string, t2: string): seq<Op>
  {
    if Gate(lk, sim, r1, r2) >= Threshold then [LinkOp(lk, sim, r1, r2, t1, t2)] else []
  }

  // ----- the four nested loops -----

  /** The body of the innermost loop: item `t1` of `r1` against the `b`-th item of `r2`. */
  function PairBody(lk: Linker, sim: Oracle, r1: Record, r2: Record, t1: string): nat -> seq<Op>
  {
    (b: nat) => if b < |Items(r2, lk.attr)| then Emit(lk, sim, r1, r2, t1, Items(r2, lk.attr)[b]) else []
  }

  /** Innermost loop (`for t2 in ...`): item `t1` of `r1` against every item of `r2`. */
  function PairOps(lk: Linker, sim: Oracle, r1: Record, r2: Record, t1: string): seq<Op>
  {
    Loop(PairBody(lk, sim, r1, r2, t1), 0, |Items(r2, lk.attr)|)
  }

  /** The body of the third loop: item `t1` of record `i` against record `i + 1 + k`. */
  function SweepBody(lk: Linker, sim: Oracle, data: seq<Record>, i: nat, t1: string): nat -> seq<Op>
  {
    (k: nat) => if i + 1 + k < |data| then PairOps(lk, sim, data[i], data[i + 1 + k], t1) else []
  }

  /** Third loop (`for j in range(i + 1, len(data))`): item `t1` of record `i` against every
      later record. */
  function SweepOps(lk: Linker, sim: Oracle, data: seq<Record>, i: nat, t1: string): seq<Op>
    requires i < |data|
  {
    Loop(SweepBody(lk, sim, data, i, t1), 0, |data| - i - 1)
  }

  /** The body of the second loop: the `a`-th item of record `i`, swept over the later records. */
  function RowBody(lk: Linker, sim: Oracle, data: seq<Record>, i: nat): nat -> seq<Op>
  {
    (a: nat) =>
      if i < |data| && a < |Items(data[i], lk.attr)| then SweepOps(lk, sim, data, i, Items(data[i], lk.attr)[a]) else []
  }

  /** Second loop (`for t1 in ...`): every item of record `i`. */
  function RowOps(lk: Linker, sim: Oracle, data: seq<Record>, i: nat): seq<Op>
    requires i < |data|
  {
    Loop(RowBody(lk, sim, data, i), 0, |Items(data[i], lk.attr)|)
  }

  function LinkBody(lk: Linker, sim: Oracle, data: seq<Record>): nat -> seq<Op>
  {
    (i: nat) => if i < |data| then RowOps(lk, sim, data, i) else []
  }

  /** Every write Step 4 issues: the outer loop (`for i in range(len(data))`) over the rows. */
  function LinkAll(lk: Linker, sim: Oracle, data: seq<Record>): seq<Op>
  {
    Loop(LinkBody(lk, sim, data), 0, |data|)
  }

  /** Step 4: one write transaction per pair of items whose records reach the threshold. */
  method Link(g: GraphStore, lk: Linker, sim: Oracle, data: seq<Record>)
    modifies g
    ensures g.State() == ApplyAll(old(g.State()), LinkAll(lk, sim, data))
  {
    ghost var s0 := g.State();
    ghost var done: seq<Op> := [];
    var i := 0;
    while i < |data|
      invariant 0 <= i <= |data|
      invariant done == Loop(LinkBody(lk, sim, data), 0, i)
      invariant g.State() == ApplyAll(s0, done)
    {
      LinkRow(g, lk, sim, data, i);
      ApplyAllAppend(s0, done, RowOps(lk, sim, data, i));
      LoopNext(LinkBody(lk, sim, data), 0, i);
      assert LinkBody(lk, sim, data)(i) == RowOps(lk, sim, data, i);
      done := done + RowOps(lk, sim, data, i);
      i := i + 1;
    }
  }

  /** The body of the outer loop: every item of record `i`. */
  method LinkRow(g: GraphStore, lk: Linker, sim: Oracle, data: seq<Record>, i: nat)
    requires i < |data|
    modifies g
    ensures g.State() == ApplyAll(old(g.State()), RowOps(lk, sim, data, i))
  {
    ghost var s0 := g.State();
    ghost var done: seq<Op> := [];
    var items1 := Items(data[i], lk.attr);
    var a := 0;
    while a < |items1|
      invariant 0 <= a <= |items1|
      invariant done == Loop(RowBody(lk, sim, data, i), 0, a)
      invariant g.State() == ApplyAll(s0, done)
    {
      LinkSweep(g, lk, sim, data, i, items1[a]);
      ApplyAllAppend(s0, done, SweepOps(lk, sim, data, i, items1[a]));
      LoopNext(RowBody(lk, sim, data, i), 0, a);
      assert RowBody(lk, sim, data, i)(a) == SweepOps(lk, sim, data, i, items1[a]);
      done := done + SweepOps(lk, sim, data, i, items1[a]);
      a := a + 1;
    }
  }

  /** The body of the second loop: item `t1` of record `i` against every later record. */
  method LinkSweep(g: GraphStore, lk: Linker, sim: Oracle, data: seq<Record>, i: nat, t1: string)
    requires i < |data|
    modifies g
    ensures g.State() == ApplyAll(old(g.State()), SweepOps(lk, sim, data, i, t1))
  {
    ghost var s0 := g.State();
    ghost var done: seq<Op> := [];
    var k := 0;
    while k < |data| - i - 1
      invariant 0 <= k <= |data| - i - 1
      invariant done == Loop(SweepBody(lk, sim, data, i, t1), 0, k)
      invariant g.State() == ApplyAll(s0, done)
    {
      var j := i + 1 + k;
      LinkPair(g, lk, sim, data[i], data[j], t1);
      ApplyAllAppend(s0, done, PairOps(lk, sim, data[i], data[j], t1));
      LoopNext(SweepBody(lk, sim, data, i, t1), 0, k);
      assert SweepBody(lk, sim, data, i, t1)(k) == PairOps(lk, sim, data[i], data[j], t1);
      done := done + PairOps(lk, sim, data[i], data[j], t1);
      k := k + 1;
    }
  }

  /** The innermost loop: item `t1` of `r1` against every item of `r2`; the scores are
      computed for each pair and the relationship written when the gate reaches the threshold. */
  method LinkPair(g: GraphStore, lk: Linker, sim: Oracle, r1: Record, r2: Record, t1: string)
    modifies g
    ensures g.State() == ApplyAll(old(g.State()), PairOps(lk, sim, r1, r2, t1))
  {
    ghost var s0 := g.State();
    ghost var done: seq<Op> := [];
    var items2 := Items(r2, lk.attr);
    var b := 0;
    while b < |items2|
      invariant 0 <= b <= |items2|
      invariant done == Loop(PairBody(lk, sim, r1, r2, t1), 0, b)
      invariant g.State() == ApplyAll(s0, done)
    {
      var t2 := items2[b];
      var score := Gate(lk, sim, r1, r2);
      ghost var pre := g.State();
      if score >= Threshold {
        g.Run(LinkOp(lk, sim, r1, r2, t1, t2));
        ApplyAllSnoc(pre, [], LinkOp(lk, sim, r1, r2, t1, t2));
      }
      ApplyAllAppend(s0, done, Emit(lk, sim, r1, r2, t1, t2));
      LoopNext(PairBody(lk, sim, r1, r2, t1), 0, b);
      assert PairBody(lk, sim, r1, r2, t1)(b) == Emit(lk, sim, r1, r2, t1, t2);
      done := done + Emit(lk, sim, r1, r2, t1, t2);
      b := b + 1;
    }
  }

  // ----- what Step 4 writes -----

  /** A pair of records reaches the threshold only when both have a non-empty text for the
      attribute, so both have at least one item. */
  lemma GateNeedsItems(lk: Linker, sim: Oracle, r1: Record, r2: Record)
    requires Gate(lk, sim, r1, r2) >= Threshold
    ensures |Items(r1, lk.attr)| > 0 && |Items(r2, lk.attr)| > 0
  {
    AttributeSimilarityCases(sim, lk.attr, r1, r2);
  }

  /** `op` links items `t1` and `t2` of records `i < j` whose similarity reaches the threshold. */
  ghost predicate Forward(lk: Linker, sim: Oracle, data: seq<Record>, op: Op)
  {
    exists i, j, t1, t2 ::
      0 <= i < j < |data| && t1 in Items(data[i], lk.attr) && t2 in Items(data[j], lk.attr)
      && Gate(lk, sim, data[i], data[j]) >= Threshold
      && op == LinkOp(lk, sim, data[i], data[j], t1, t2)
  }

  lemma PairOnly(lk: Linker, sim: Oracle, r1: Record, r2: Record, t1: string, op: Op)
    requires op in PairOps(lk, sim, r1, r2, t1)
    ensures Gate(lk, sim, r1, r2) >= Threshold
    ensures exists t2 :: t2 in Items(r2, lk.attr) && op == LinkOp(lk, sim, r1, r2, t1, t2)
  {
    LoopOnly(PairBody(lk, sim, r1, r2, t1), 0, |Items(r2, lk.attr)|, op);
    var b :| 0 <= b < |Items(r2, lk.attr)| && op in PairBody(lk, sim, r1, r2, t1)(b);
    assert op in Emit(lk, sim, r1, r2, t1, Items(r2, lk.attr)[b]);
  }

  lemma SweepOnly(lk: Linker, sim: Oracle, data: seq<Record>, i: nat, t1: string, op: Op)
    requires i < |data| && op in SweepOps(lk, sim, data, i, t1)
    ensures exists j, t2 :: i < j < |data| && t2 in Items(data[j], lk.attr)
              && Gate(lk, sim, data[i], data[j]) >= Threshold && op == LinkOp(lk, sim, data[i], data[j], t1, t2)
  {
    LoopOnly(SweepBody(lk, sim, data, i, t1), 0, |data| - i - 1, op);
    var k :| 0 <= k < |data| - i - 1 && op in SweepBody(lk, sim, data, i, t1)(k);
    PairOnly(lk, sim, data[i], data[i + 1 + k], t1, op);
  }

  lemma RowOnly(lk: Linker, sim: Oracle, data: seq<Record>, i: nat, op: Op)
    requires i < |data| && op in RowOps(lk, sim, data, i)
    ensures Forward(lk, sim, data, op)
    ensures op.edge.src == IncidentNode(data[i].filename)
  {
    LoopOnly(RowBody(lk, sim, data, i), 0, |Items(data[i], lk.attr)|, op);
    var a :| 0 <= a < |Items(data[i], lk.attr)| && op in RowBody(lk, sim, data, i)(a);
    var t1 := Items(data[i], lk.attr)[a];
    SweepOnly(lk, sim, data, i, t1, op);
    var j, t2 :| i < j < |data| && t2 in Items(data[j], lk.attr)
      && Gate(lk, sim, data[i], data[j]) >= Threshold && op == LinkOp(lk, sim, data[i], data[j], t1, t2);
  }

  lemma LinkOnly(lk: Linker, sim: Oracle, data: seq<Record>, op: Op)
    requires op in LinkAll(lk, sim, data)
    ensures Forward(lk, sim, data, op)
  {
    LoopOnly(LinkBody(lk, sim, data), 0, |data|, op);
    var i :| 0 <= i < |data| && op in LinkBody(lk, sim, data)(i);
    RowOnly(lk, sim, data, i, op);
  }

  lemma PairHas(lk: Linker, sim: Oracle, r1: Record, r2: Record, t1: string, b: nat)
    requires b < |Items(r2, lk.attr)| && Gate(lk, sim, r1, r2) >= Threshold
    ensures LinkOp(lk, sim, r1, r2, t1, Items(r2, lk.attr)[b]) in PairOps(lk, sim, r1, r2, t1)
  {
    var op := LinkOp(lk, sim, r1, r2, t1, Items(r2, lk.attr)[b]);
    assert op in PairBody(lk, sim, r1, r2, t1)(b);
    LoopHas(PairBody(lk, sim, r1, r2, t1), 0, |Items(r2, lk.attr)|, b, op);
  }

  lemma SweepHas(lk: Linker, sim: Oracle, data: seq<Record>, i: nat, t1: string, j: nat, b: nat)
    requires i < j < |data| && b < |Items(data[j], lk.attr)| && Gate(lk, sim, data[i], data[j]) >= Threshold
    ensures LinkOp(lk, sim, data[i], data[j], t1, Items(data[j], lk.attr)[b]) in SweepOps(lk, sim, data, i, t1)
  {
    var op := LinkOp(lk, sim, data[i], data[j], t1, Items(data[j], lk.attr)[b]);
    PairHas(lk, sim, data[i], data[j], t1, b);
    assert op in SweepBody(lk, sim, data, i, t1)(j - i - 1);
    LoopHas(SweepBody(lk, sim, data, i, t1), 0, |data| - i - 1, j - i - 1, op);
  }

  lemma RowHas(lk: Linker, sim: Oracle, data: seq<Record>, i: nat, a: nat, j: nat, b: nat)
    requires i < j < |data| && a < |Items(data[i], lk.attr)| && b < |Items(data[j], lk.attr)|
    requires Gate(lk, sim, data[i], data[j]) >= Threshold
    ensures LinkOp(lk, sim, data[i], data[j], Items(data[i], lk.attr)[a], Items(data[j], lk.attr)[b])
            in RowOps(lk, sim, data, i)
  {
    var op := LinkOp(lk, sim, data[i], data[j], Items(data[i], lk.attr)[a], Items(data[j], lk.attr)[b]);
    SweepHas(lk, sim, data, i, Items(data[i], lk.attr)[a], j, b);
    assert op in RowBody(lk, sim, data, i)(a);
    LoopHas(RowBody(lk, sim, data, i), 0, |Items(data[i], lk.attr)|, a, op);
  }

  lemma LinkHas(lk: Linker, sim: Oracle, data: seq<Record>, i: nat, a: nat, j: nat, b: nat)
    requires i < j < |data| && a < |Items(data[i], lk.attr)| && b < |Items(data[j], lk.attr)|
    requires Gate(lk, sim, data[i], data[j]) >= Threshold
    ensures LinkOp(lk, sim, data[i], data[j], Items(data[i], lk.attr)[a], Items(data[j], lk.attr)[b])
            in LinkAll(lk, sim, data)
  {
    var op := LinkOp(lk, sim, data[i], data[j], Items(data[i], lk.attr)[a], Items(data[j], lk.attr)[b]);
    RowHas(lk, sim, data, i, a, j, b);
    assert op in LinkBody(lk, sim, data)(i);
    LoopHas(LinkBody(lk, sim, data), 0, |data|, i, op);
  }

  /** Step 4 writes exactly one guarded MERGE per pair of items of records `i < j` whose
      similarity reaches the threshold: never from a later record to an earlier one, never a
      record with itself, and never below the threshold. */
  lemma LinkAllIff(lk: Linker, sim: Oracle, data: seq<Record>, op: Op)
    ensures op in LinkAll(lk, sim, data) <==> Forward(lk, sim, data, op)
  {
    if op in LinkAll(lk, sim, data) {
      LinkOnly(lk, sim, data, op);
    }
    if Forward(lk, sim, data, op) {
      var i, j, t1, t2 :| 0 <= i < j < |data| && t1 in Items(data[i], lk.attr) && t2 in Items(data[j], lk.attr)
        && Gate(lk, sim, data[i], data[j]) >= Threshold && op == LinkOp(lk, sim, data[i], data[j], t1, t2);
      var a :| 0 <= a < |Items(data[i], lk.attr)| && Items(data[i], lk.attr)[a] == t1;
      var b :| 0 <= b < |Items(data[j], lk.attr)| && Items(data[j], lk.attr)[b] == t2;
      LinkHas(lk, sim, data, i, a, j, b);
    }
  }

  /** The relationships linking a record to a later one whose similarity reaches the threshold. */
  function LinkedPairs(lk: Linker, sim: Oracle, data: seq<Record>): set<EdgeKey>
  {
    set i, j | 0 <= i < j < |data| && Gate(lk, sim, data[i], data[j]) >= Threshold :: PairEdge(lk, data[i], data[j])
  }

  /** Step 4 writes a relationship exactly for each pair of records `i < j` whose similarity
      reaches the threshold, and for no other. */
  lemma LinkAllEdges(lk: Linker, sim: Oracle, data: seq<Record>)
    ensures EdgesWritten(LinkAll(lk, sim, data)).Keys == LinkedPairs(lk, sim, data)
  {
    var ops := LinkAll(lk, sim, data);
    EdgeKeysOf(ops);
    forall e | e in EdgesWritten(ops) ensures e in LinkedPairs(lk, sim, data) {
      var op :| op in ops && (op.EdgeMerge? || op.MatchedEdgeMerge?) && op.edge == e;
      LinkAllIff(lk, sim, data, op);
    }
    forall e | e in LinkedPairs(lk, sim, data) ensures e in EdgesWritten(ops) {
      var i, j :| 0 <= i < j < |data| && Gate(lk, sim, data[i], data[j]) >= Threshold && e == PairEdge(lk, data[i], data[j]);
      GateNeedsItems(lk, sim, data[i], data[j]);
      LinkHas(lk, sim, data, i, 0, j, 0);
    }
  }

  /** Every write of Step 4 is a MATCH-guarded MERGE that SETs the same properties. */
  lemma LinkAllGuarded(lk: Linker, sim: Oracle, data: seq<Record>)
    ensures forall k | 0 <= k < |LinkAll(lk, sim, data)| ::
              LinkAll(lk, sim, data)[k].MatchedEdgeMerge? && LinkAll(lk, sim, data)[k].sets.Keys == PropKeys(lk)
  {
    var ops := LinkAll(lk, sim, data);
    forall k | 0 <= k < |ops| ensures ops[k].MatchedEdgeMerge? && ops[k].sets.Keys == PropKeys(lk) {
      LinkAllIff(lk, sim, data, ops[k]);
    }
  }

  /** Every Incident and every item node of the paired attribute is in `s`. */
  predicate NodesReady(lk: Linker, s: GraphState, data: seq<Record>)
  {
    forall i | 0 <= i < |data| ::
      IncidentNode(data[i].filename) in s.nodes
      && forall t | t in Items(data[i], lk.attr) :: ValueNode(lk.nodeLabel, t) in s.nodes
  }

  /** Once the incidents and their items are in the database, every MATCH of Step 4 succeeds. */
  lemma LinkAllEffective(lk: Linker, sim: Oracle, s: GraphState, data: seq<Record>)
    requires NodesReady(lk, s, data)
    ensures Effective(s, LinkAll(lk, sim, data))
  {
    var ops := LinkAll(lk, sim, data);
    forall k | 0 <= k < |ops| ensures Matched(s, ops[k]) {
      LinkAllIff(lk, sim, data, ops[k]);
    }
  }

  /** Step 4 adds no node and changes none, and uses no `create`. */
  lemma LinkKeepsNodes(lk: Linker, sim: Oracle, s: GraphState, data: seq<Record>)
    ensures ApplyAll(s, LinkAll(lk, sim, data)).nodes == s.nodes
    ensures ApplyAll(s, LinkAll(lk, sim, data)).created == s.created
  {
    LinkAllGuarded(lk, sim, data);
    GuardedKeepsNodes(s, LinkAll(lk, sim, data));
  }

  /** Run from a database holding the incidents and their items, Step 4 adds exactly the
      linking relationships and leaves every other relationship as it was. */
  lemma LinkEdgesEffect(lk: Linker, sim: Oracle, s: GraphState, data: seq<Record>)
    requires NodesReady(lk, s, data)
    ensures ApplyAll(s, LinkAll(lk, sim, data)).edges.Keys == s.edges.Keys + LinkedPairs(lk, sim, data)
    ensures forall e | e in s.edges && e !in LinkedPairs(lk, sim, data) :: ApplyAll(s, LinkAll(lk, sim, data)).edges[e] == s.edges[e]
  {
    LinkAllEffective(lk, sim, s, data);
    LinkAllEdges(lk, sim, data);
    ScriptEdges(s, LinkAll(lk, sim, data), LinkedPairs(lk, sim, data));
  }

  /** Running Step 4 a second time changes nothing. */
  lemma LinkIdempotent(lk: Linker, sim: Oracle, s: GraphState, data: seq<Record>)
    requires NodesReady(lk, s, data)
    ensures ApplyAll(ApplyAll(s, LinkAll(lk, sim, data)), LinkAll(lk, sim, data)) == ApplyAll(s, LinkAll(lk, sim, data))
  {
    LinkAllEffective(lk, sim, s, data);
    EffectiveIdempotent(s, LinkAll(lk, sim, data));
  }

  // ----- which items a linking relationship ends up carrying -----

  /** No two records share a file name. */
  predicate DistinctFiles(data: seq<Record>)
  {
    forall a, b | 0 <= a < b < |data| :: data[a].filename != data[b].filename
  }

  function LastItem(r: Record, attr: string): string
    requires |Items(r, attr)| > 0
  {
    Items(r, attr)[|Items(r, attr)| - 1]
  }

  /** The writes for item `t1` of `r1` against the items of `r2` touch only the relationship
      from `r1` to `r2`, and SET the properties of a link on it. */
  lemma PairWrites(lk: Linker, sim: Oracle, r1: Record, r2: Record, t1: string, e: EdgeKey)
    ensures e != PairEdge(lk, r1, r2) ==> Misses(PairOps(lk, sim, r1, r2, t1), e)
    ensures SetsWithin(PairOps(lk, sim, r1, r2, t1), e, PropKeys(lk))
  {
    forall op | op in PairOps(lk, sim, r1, r2, t1)
      ensures op.MatchedEdgeMerge? && op.edge == PairEdge(lk, r1, r2) && op.sets.Keys == PropKeys(lk)
    {
      PairOnly(lk, sim, r1, r2, t1, op);
    }
  }

  /** What the innermost loop leaves on the relationship: the link for `t1` and the last item
      of `r2`. */
  lemma PairLast(lk: Linker, sim: Oracle, r1: Record, r2: Record, t1: string)
    requires Gate(lk, sim, r1, r2) >= Threshold
    ensures |Items(r2, lk.attr)| > 0
    ensures PropsOf(EdgesWritten(PairOps(lk, sim, r1, r2, t1)), PairEdge(lk, r1, r2))
         == LinkProps(lk, sim, r1, r2, t1, LastItem(r2, lk.attr))
  {
    GateNeedsItems(lk, sim, r1, r2);
    var body := PairBody(lk, sim, r1, r2, t1);
    var n := |Items(r2, lk.attr)|;
    var e := PairEdge(lk, r1, r2);
    var w := LinkOp(lk, sim, r1, r2, t1, LastItem(r2, lk.attr));
    forall b | 0 <= b < n - 1 ensures SetsWithin(body(b), e, PropKeys(lk)) {
      assert body(b) == [LinkOp(lk, sim, r1, r2, t1, Items(r2, lk.attr)[b])];
    }
    assert body(n - 1) == [w];
    SingleWrite(w);
    LoopLast(body, 0, n, e, PropKeys(lk));
  }

  /** Sweeping item `t1` of record `i` over the later records leaves on the relationship to
      record `j` what the pass over record `j` SETs. */
  lemma SweepAt(lk: Linker, sim: Oracle, data: seq<Record>, i: nat, t1: string, j: nat)
    requires DistinctFiles(data) && i < j < |data|
    ensures PropsOf(EdgesWritten(SweepOps(lk, sim, data, i, t1)), PairEdge(lk, data[i], data[j]))
         == PropsOf(EdgesWritten(PairOps(lk, sim, data[i], data[j], t1)), PairEdge(lk, data[i], data[j]))
  {
    var body := SweepBody(lk, sim, data, i, t1);
    SweepOthersMiss(lk, sim, data, i, t1, j);
    assert body(j - i - 1) == PairOps(lk, sim, data[i], data[j], t1);
    LoopFocus(body, 0, |data| - i - 1, j - i - 1, PairEdge(lk, data[i], data[j]));
  }

  /** The passes over the records other than `j` miss the relationship to record `j`. */
  lemma SweepOthersMiss(lk: Linker, sim: Oracle, data: seq<Record>, i: nat, t1: string, j: nat)
    requires DistinctFiles(data) && i < j < |data|
    ensures forall k | 0 <= k < |data| - i - 1 && k != j - i - 1 ::
              Misses(SweepBody(lk, sim, data, i, t1)(k), PairEdge(lk, data[i], data[j]))
  {
    var e := PairEdge(lk, data[i], data[j]);
    forall k | 0 <= k < |data| - i - 1 && k != j - i - 1 ensures Misses(SweepBody(lk, sim, data, i, t1)(k), e) {
      assert data[i + 1 + k].filename != data[j].filename;
      PairWrites(lk, sim, data[i], data[i + 1 + k], t1, e);
    }
  }

  lemma SweepWrites(lk: Linker, sim: Oracle, data: seq<Record>, i: nat, t1: string, e: EdgeKey)
    requires i < |data|
    ensures SetsWithin(SweepOps(lk, sim, data, i, t1), e, PropKeys(lk))
  {
    var body := SweepBody(lk, sim, data, i, t1);
    forall k | 0 <= k < |data| - i - 1 ensures SetsWithin(body(k), e, PropKeys(lk)) {
      PairWrites(lk, sim, data[i], data[i + 1 + k], t1, e);
    }
    LoopSetsWithin(body, 0, |data| - i - 1, e, PropKeys(lk));
  }

  /** The row of record `i` leaves on the relationship to record `j` what the sweep of its last
      item SETs. */
  lemma RowLast(lk: Linker, sim: Oracle, data: seq<Record>, i: nat, j: nat)
    requires DistinctFiles(data) && i < j < |data|
    requires Gate(lk, sim, data[i], data[j]) >= Threshold
    ensures |Items(data[i], lk.attr)| > 0 && |Items(data[j], lk.attr)| > 0
    ensures PropsOf(EdgesWritten(RowOps(lk, sim, data, i)), PairEdge(lk, data[i], data[j]))
         == LinkProps(lk, sim, data[i], data[j], LastItem(data[i], lk.attr), LastItem(data[j], lk.attr))
  {
    GateNeedsItems(lk, sim, data[i], data[j]);
    var body := RowBody(lk, sim, data, i);
    var m := |Items(data[i], lk.attr)|;
    var t1 := LastItem(data[i], lk.attr);
    var e := PairEdge(lk, data[i], data[j]);
    forall a | 0 <= a < m - 1 ensures SetsWithin(body(a), e, PropKeys(lk)) {
      SweepWrites(lk, sim, data, i, Items(data[i], lk.attr)[a], e);
    }
    assert body(m - 1) == SweepOps(lk, sim, data, i, t1);
    SweepAt(lk, sim, data, i, t1, j);
    PairLast(lk, sim, data[i], data[j], t1);
    LoopLast(body, 0, m, e, PropKeys(lk));
  }

  /** The rows of records other than `i` write nothing on a relationship from record `i`. */
  lemma RowMisses(lk: Linker, sim: Oracle, data: seq<Record>, k: nat, e: EdgeKey)
    requires k < |data| && e.src != IncidentNode(data[k].filename)
    ensures Misses(RowOps(lk, sim, data, k), e)
  {
    forall op | op in RowOps(lk, sim, data, k) ensures e !in EdgeDelta(op) {
      RowOnly(lk, sim, data, k, op);
    }
  }

  /** When no two records share a file name, the relationship linking records `i < j` ends up
      carrying their scores and, as its two items, the LAST item of each record: every later
      pair of items of the same two records SETs the same properties again and overwrites the
      items an earlier pair SET. */
  lemma LinkLastWrite(lk: Linker, sim: Oracle, data: seq<Record>, i: nat, j: nat)
    requires DistinctFiles(data) && i < j < |data|
    requires Gate(lk, sim, data[i], data[j]) >= Threshold
    ensures |Items(data[i], lk.attr)| > 0 && |Items(data[j], lk.attr)| > 0
    ensures PropsOf(EdgesWritten(LinkAll(lk, sim, data)), PairEdge(lk, data[i], data[j]))
         == LinkProps(lk, sim, data[i], data[j], LastItem(data[i], lk.attr), LastItem(data[j], lk.attr))
  {
    var body := LinkBody(lk, sim, data);
    var e := PairEdge(lk, data[i], data[j]);
    forall k | 0 <= k < |data| && k != i ensures Misses(body(k), e) {
      if k < i {
        assert data[k].filename != data[i].filename;
      } else {
        assert data[i].filename != data[k].filename;
      }
      RowMisses(lk, sim, data, k, e);
    }
    RowLast(lk, sim, data, i, j);
    LoopFocus(body, 0, |data|, i, e);
  }
}
