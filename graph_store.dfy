/** The Neo4j property graph that the ingestion scripts write to, reduced to the effects of
    the Cypher and py2neo calls they make.

    A node is identified by its label and the values of its key properties (`MERGE
    (n:Task {description: $item})` is the node `NodeKey("Task", [item])`), so two MERGEs with
    the same label and key always reach the same node. A MERGEd relationship is identified by
    its endpoints and type, so there is at most one of them per (source, type, target). The
    relationships that py2neo's `graph.create` adds are kept apart in a multiset, because every
    call adds a new one. */
module PropertyGraph {

  datatype Value = Str(s: string) | Num(r: real)

  type Props = map<string, Value>

  datatype NodeKey = NodeKey(nodeLabel: string, key: seq<string>)

  datatype EdgeKey = EdgeKey(src: NodeKey, rel: string, dst: NodeKey)

  datatype GraphState = GraphState(
    nodes: map<NodeKey, Props>,
    edges: map<EdgeKey, Props>,
    created: multiset<EdgeKey>)

  function Empty(): GraphState
  {
    GraphState(map[], map[], multiset{})
  }

  /** The properties stored under `k`, none if `k` is absent. */
  function PropsOf<K(!new)>(m: map<K, Props>, k: K): Props
  {
    if k in m then m[k] else map[]
  }

  /** `m` with `d` written over it: every key of either, and for each key the properties of
      `m` updated by those of `d` (Cypher `MERGE` followed by `SET n.p = v` for each p in `d`). */
  function Overlay<K(!new)>(m: map<K, Props>, d: map<K, Props>): (r: map<K, Props>)
    ensures r.Keys == m.Keys + d.Keys
    ensures forall k | k in r :: r[k] == PropsOf(m, k) + PropsOf(d, k)
  {
    map k | k in m.Keys + d.Keys :: PropsOf(m, k) + PropsOf(d, k)
  }

  /** One write a script makes. */
  datatype Op =
      /** `MERGE (n:L {key}) SET n.p = v, ...` */
    | NodeMerge(node: NodeKey, sets: Props)
      /** `MERGE (a)-[r:T]->(b) SET r.p = v, ...`, its endpoints MERGEd first. */
    | EdgeMerge(edge: EdgeKey, sets: Props)
      /** `MATCH` the nodes in `need`, and only if all are found
          `MERGE (a)-[r:T]->(b) SET r.p = v, ...`. */
    | MatchedEdgeMerge(need: set<NodeKey>, edge: EdgeKey, sets: Props)
      /** py2neo `graph.create(Relationship(a, T, b))` on already merged nodes. */
    | EdgeCreate(edge: EdgeKey)

  function Ends(e: EdgeKey): map<NodeKey, Props>
  {
    map[e.src := map[], e.dst := map[]]
  }

  /** MERGE of the endpoints of a relationship: each is added without properties if absent. */
  function Touch(m: map<NodeKey, Props>, e: EdgeKey): map<NodeKey, Props>
  {
    m[e.src := PropsOf(m, e.src)][e.dst := PropsOf(m, e.dst)]
  }

  function Apply(s: GraphState, op: Op): GraphState
  {
    match op
    case NodeMerge(n, p) => s.(nodes := s.nodes[n := PropsOf(s.nodes, n) + p])
    case EdgeMerge(e, p) => s.(nodes := Touch(s.nodes, e), edges := s.edges[e := PropsOf(s.edges, e) + p])
    case MatchedEdgeMerge(need, e, p) =>
      if need + {e.src, e.dst} <= s.nodes.Keys then s.(edges := s.edges[e := PropsOf(s.edges, e) + p]) else s
    case EdgeCreate(e) => s.(nodes := Touch(s.nodes, e), created := s.created + multiset{e})
  }

  /** The state after running `ops` in order. */
  function ApplyAll(s: GraphState, ops: seq<Op>): GraphState
    decreases |ops|
  {
    if ops == [] then s else ApplyAll(Apply(s, ops[0]), ops[1..])
  }

  lemma {:induction false} ApplyAllAppend(s: GraphState, a: seq<Op>, b: seq<Op>)
    ensures ApplyAll(s, a + b) == ApplyAll(ApplyAll(s, a), b)
    decreases |a|
  {
    if a != [] {
      assert (a + b)[0] == a[0];
      assert (a + b)[1..] == a[1..] + b;
      ApplyAllAppend(Apply(s, a[0]), a[1..], b);
    } else {
      assert a + b == b;
    }
  }

  lemma ApplyAllSnoc(s: GraphState, a: seq<Op>, op: Op)
    ensures ApplyAll(s, a + [op]) == Apply(ApplyAll(s, a), op)
  {
    ApplyAllAppend(s, a, [op]);
  }

  /** Every relationship joins two nodes that exist. */
  ghost predicate WellFormed(s: GraphState)
  {
    && (forall e | e in s.edges :: e.src in s.nodes && e.dst in s.nodes)
    && (forall e | e in s.created :: e.src in s.nodes && e.dst in s.nodes)
  }

  /** No write leaves a dangling relationship, and no write removes a node or a relationship. */
  lemma ApplyKeepsWellFormed(s: GraphState, op: Op)
    requires WellFormed(s)
    ensures WellFormed(Apply(s, op))
    ensures s.nodes.Keys <= Apply(s, op).nodes.Keys && s.edges.Keys <= Apply(s, op).edges.Keys
    ensures s.created <= Apply(s, op).created
  {
  }

  lemma {:induction false} ApplyAllKeepsWellFormed(s: GraphState, ops: seq<Op>)
    requires WellFormed(s)
    ensures WellFormed(ApplyAll(s, ops))
    ensures s.nodes.Keys <= ApplyAll(s, ops).nodes.Keys && s.edges.Keys <= ApplyAll(s, ops).edges.Keys
    ensures s.created <= ApplyAll(s, ops).created
    decreases |ops|
  {
    if ops != [] {
      ApplyKeepsWellFormed(s, ops[0]);
      ApplyAllKeepsWellFormed(Apply(s, ops[0]), ops[1..]);
    }
  }

  // ----- MERGE-only scripts are idempotent -----

  /** Only MERGE writes, none of them guarded by a MATCH. */
  predicate MergeOnly(ops: seq<Op>)
  {
    forall i | 0 <= i < |ops| :: ops[i].NodeMerge? || ops[i].EdgeMerge?
  }

  /** The MATCH of a guarded write finds all its nodes in `s`. */
  predicate Matched(s: GraphState, op: Op)
  {
    op.MatchedEdgeMerge? && op.need + {op.edge.src, op.edge.dst} <= s.nodes.Keys
  }

  /** Run from `s`, every write of `ops` is a MERGE that takes effect: no `create`, and
      every MATCH-guarded MERGE finds its nodes already in `s`. */
  predicate Effective(s: GraphState, ops: seq<Op>)
  {
    forall i | 0 <= i < |ops| :: ops[i].NodeMerge? || ops[i].EdgeMerge? || Matched(s, ops[i])
  }

  function NodeDelta(op: Op): map<NodeKey, Props>
  {
    match op
    case NodeMerge(n, p) => map[n := p]
    case EdgeMerge(e, _) => Ends(e)
    case _ => map[]
  }

  function EdgeDelta(op: Op): map<EdgeKey, Props>
  {
    match op
    case EdgeMerge(e, p) => map[e := p]
    case MatchedEdgeMerge(_, e, p) => map[e := p]
    case _ => map[]
  }

  /** What a whole MERGE script writes to the nodes, and to the relationships. */
  function NodesWritten(ops: seq<Op>): map<NodeKey, Props>
  {
    if ops == [] then map[] else Overlay(NodeDelta(ops[0]), NodesWritten(ops[1..]))
  }

  function EdgesWritten(ops: seq<Op>): map<EdgeKey, Props>
  {
    if ops == [] then map[] else Overlay(EdgeDelta(ops[0]), EdgesWritten(ops[1..]))
  }

  lemma UnionAssoc(a: Props, b: Props, c: Props)
    ensures (a + b) + c == a + (b + c)
  {
  }

  lemma UnionTwice(a: Props, b: Props)
    ensures (a + b) + b == a + b
  {
  }

  lemma OverlayAt<K(!new)>(m: map<K, Props>, d: map<K, Props>, k: K)
    ensures PropsOf(Overlay(m, d), k) == PropsOf(m, k) + PropsOf(d, k)
  {
    if k !in m && k !in d {
      var e: Props := map[];
      assert e + e == e;
    }
  }

  lemma OverlayAssoc<K(!new)>(m: map<K, Props>, a: map<K, Props>, b: map<K, Props>)
    ensures Overlay(Overlay(m, a), b) == Overlay(m, Overlay(a, b))
  {
    var l, r := Overlay(Overlay(m, a), b), Overlay(m, Overlay(a, b));
    forall k | k in l ensures k in r && l[k] == r[k] {
      OverlayAt(m, a, k);
      OverlayAt(a, b, k);
      UnionAssoc(PropsOf(m, k), PropsOf(a, k), PropsOf(b, k));
    }
    assert l.Keys == r.Keys;
  }

  lemma OverlayTwice<K(!new)>(m: map<K, Props>, d: map<K, Props>)
    ensures Overlay(Overlay(m, d), d) == Overlay(m, d)
  {
    var md := Overlay(m, d);
    var l := Overlay(md, d);
    assert l.Keys == md.Keys;
    forall k | k in l ensures l[k] == md[k] {
      UnionTwice(PropsOf(m, k), PropsOf(d, k));
    }
  }

  lemma OverlayEmpty<K(!new)>(m: map<K, Props>)
    ensures Overlay(m, map[]) == m
  {
    var l := Overlay(m, map[]);
    assert l.Keys == m.Keys;
    forall k | k in l ensures l[k] == m[k] {
      assert PropsOf(map[], k) == map[];
    }
  }

  /** MERGE of one node, written as an update of that one entry. */
  lemma OverlayOne<K(!new)>(m: map<K, Props>, k: K, p: Props)
    ensures Overlay(m, map[k := p]) == m[k := PropsOf(m, k) + p]
  {
    var l, r := Overlay(m, map[k := p]), m[k := PropsOf(m, k) + p];
    assert l.Keys == r.Keys;
    forall j | j in l ensures l[j] == r[j] {
      if j != k {
        assert PropsOf(map[k := p], j) == map[];
      }
    }
  }

  /** One more entry in a batch of MERGEs is one more MERGE after the batch. */
  lemma OverlayAdd<K(!new)>(m: map<K, Props>, a: map<K, Props>, k: K, p: Props)
    requires k !in a
    ensures Overlay(m, a[k := p]) == Overlay(m, a)[k := PropsOf(Overlay(m, a), k) + p]
  {
    OverlayOne(a, k, p);
    assert PropsOf(a, k) == map[];
    assert map[] + p == p;
    OverlayAssoc(m, a, map[k := p]);
    OverlayOne(Overlay(m, a), k, p);
  }

  /** `Touch` keeps every node there was and adds the missing endpoints. */
  lemma TouchKeys(m: map<NodeKey, Props>, e: EdgeKey)
    ensures Touch(m, e).Keys == m.Keys + {e.src, e.dst}
    ensures forall k | k in m :: Touch(m, e)[k] == m[k]
  {
  }

  /** `Touch` is the overlay of the two endpoints without properties. */
  lemma TouchIsOverlay(m: map<NodeKey, Props>, e: EdgeKey)
    ensures Touch(m, e) == Overlay(m, Ends(e))
  {
    var l, r := Touch(m, e), Overlay(m, Ends(e));
    assert l.Keys == r.Keys;
    forall k | k in l ensures l[k] == r[k] {
      if k in m {
        assert PropsOf(Ends(e), k) == map[];
      } else {
        assert PropsOf(m, k) == map[];
      }
    }
  }

  /** An effective write overlays its node and relationship deltas. */
  lemma ApplyIsOverlay(s: GraphState, op: Op)
    requires op.NodeMerge? || op.EdgeMerge? || Matched(s, op)
    ensures Apply(s, op) == s.(nodes := Overlay(s.nodes, NodeDelta(op)), edges := Overlay(s.edges, EdgeDelta(op)))
  {
    match op
    case NodeMerge(n, p) =>
      OverlayOne(s.nodes, n, p);
      OverlayEmpty(s.edges);
    case EdgeMerge(e, p) =>
      TouchIsOverlay(s.nodes, e);
      OverlayOne(s.edges, e, p);
    case MatchedEdgeMerge(need, e, p) =>
      OverlayEmpty(s.nodes);
      OverlayOne(s.edges, e, p);
  }

  /** A script of effective MERGEs writes the same thing whatever state it starts from: the
      nodes and the relationships it names, with its SET properties written over what was
      there. */
  lemma {:induction false} ScriptEffect(s: GraphState, ops: seq<Op>)
    requires Effective(s, ops)
    ensures ApplyAll(s, ops)
         == s.(nodes := Overlay(s.nodes, NodesWritten(ops)), edges := Overlay(s.edges, EdgesWritten(ops)))
    decreases |ops|
  {
    if ops == [] {
      OverlayEmpty(s.nodes);
      OverlayEmpty(s.edges);
    } else {
      var t := Apply(s, ops[0]);
      assert s.nodes.Keys <= t.nodes.Keys;
      assert Effective(t, ops[1..]) by {
        forall i | 0 <= i < |ops[1..]|
          ensures ops[1..][i].NodeMerge? || ops[1..][i].EdgeMerge? || Matched(t, ops[1..][i])
        {
          assert ops[1..][i] == ops[i + 1];
        }
      }
      ScriptEffect(t, ops[1..]);
      OverlayAssoc(s.nodes, NodeDelta(ops[0]), NodesWritten(ops[1..]));
      OverlayAssoc(s.edges, EdgeDelta(ops[0]), EdgesWritten(ops[1..]));
      ApplyIsOverlay(s, ops[0]);
    }
  }

  /** Running a MERGE script a second time changes nothing. */
  lemma MergeScriptIdempotent(s: GraphState, ops: seq<Op>)
    requires MergeOnly(ops)
    ensures ApplyAll(ApplyAll(s, ops), ops) == ApplyAll(s, ops)
  {
    var once := ApplyAll(s, ops);
    ScriptEffect(s, ops);
    ScriptEffect(once, ops);
    OverlayTwice(s.nodes, NodesWritten(ops));
    OverlayTwice(s.edges, EdgesWritten(ops));
  }

  /** More generally, running a second time any script whose writes all take effect changes
      nothing: the nodes its MATCHes found are still there. */
  lemma EffectiveIdempotent(s: GraphState, ops: seq<Op>)
    requires Effective(s, ops)
    ensures ApplyAll(ApplyAll(s, ops), ops) == ApplyAll(s, ops)
  {
    var once := ApplyAll(s, ops);
    ScriptEffect(s, ops);
    assert s.nodes.Keys <= once.nodes.Keys;
    assert Effective(once, ops);
    ScriptEffect(once, ops);
    OverlayTwice(s.nodes, NodesWritten(ops));
    OverlayTwice(s.edges, EdgesWritten(ops));
  }

  /** An effective script adds exactly the relationships it writes and leaves every other
      relationship as it was. */
  lemma ScriptEdges(s: GraphState, ops: seq<Op>, written: set<EdgeKey>)
    requires Effective(s, ops) && EdgesWritten(ops).Keys == written
    ensures ApplyAll(s, ops).edges.Keys == s.edges.Keys + written
    ensures forall e | e in s.edges && e !in written :: ApplyAll(s, ops).edges[e] == s.edges[e]
  {
    ScriptEffect(s, ops);
    OverlayOutside(s.edges, EdgesWritten(ops));
  }

  /** What two scripts run one after the other SET on a relationship. */
  lemma EdgePropsAppend(a: seq<Op>, b: seq<Op>, e: EdgeKey)
    ensures PropsOf(EdgesWritten(a + b), e) == PropsOf(EdgesWritten(a), e) + PropsOf(EdgesWritten(b), e)
  {
    WrittenAppend(a, b);
    OverlayAt(EdgesWritten(a), EdgesWritten(b), e);
  }

  /** Keys the overlay does not name keep their properties. */
  lemma OverlayOutside<K(!new)>(m: map<K, Props>, w: map<K, Props>)
    ensures forall k | k in m && k !in w :: Overlay(m, w)[k] == m[k]
  {
    forall k | k in m && k !in w ensures Overlay(m, w)[k] == m[k] {
      OverlayAt(m, w, k);
      assert m[k] + map[] == m[k];
    }
  }

  /** Writes guarded by a MATCH never add or change a node, and never `create`. */
  lemma {:induction false} GuardedKeepsNodes(s: GraphState, ops: seq<Op>)
    requires forall k | 0 <= k < |ops| :: ops[k].MatchedEdgeMerge?
    ensures ApplyAll(s, ops).nodes == s.nodes && ApplyAll(s, ops).created == s.created
    decreases |ops|
  {
    if ops != [] {
      GuardedKeepsNodes(Apply(s, ops[0]), ops[1..]);
    }
  }

  /** The relationships a script writes are those its relationship writes name. */
  lemma {:induction false} EdgeKeysOf(ops: seq<Op>)
    ensures EdgesWritten(ops).Keys == set op | op in ops && (op.EdgeMerge? || op.MatchedEdgeMerge?) :: op.edge
    decreases |ops|
  {
    if ops != [] {
      EdgeKeysOf(ops[1..]);
      assert forall op :: op in ops <==> op == ops[0] || op in ops[1..];
    }
  }

  lemma OverlayEmptyLeft<K(!new)>(d: map<K, Props>)
    ensures Overlay(map[], d) == d
  {
    var l := Overlay(map[], d);
    assert l.Keys == d.Keys;
    forall k | k in l ensures l[k] == d[k] {
      assert PropsOf(map[], k) == map[];
    }
  }

  /** Running two scripts one after the other writes what the first writes, overwritten by
      what the second writes. */
  lemma {:induction false} WrittenAppend(a: seq<Op>, b: seq<Op>)
    ensures NodesWritten(a + b) == Overlay(NodesWritten(a), NodesWritten(b))
    ensures EdgesWritten(a + b) == Overlay(EdgesWritten(a), EdgesWritten(b))
    decreases |a|
  {
    if a == [] {
      assert a + b == b;
      OverlayEmptyLeft(NodesWritten(b));
      OverlayEmptyLeft(EdgesWritten(b));
    } else {
      assert (a + b)[0] == a[0];
      assert (a + b)[1..] == a[1..] + b;
      WrittenAppend(a[1..], b);
      OverlayAssoc(NodeDelta(a[0]), NodesWritten(a[1..]), NodesWritten(b));
      OverlayAssoc(EdgeDelta(a[0]), EdgesWritten(a[1..]), EdgesWritten(b));
    }
  }

  /** A relationship no write of `ops` names is written nothing. */
  lemma {:induction false} EdgeUntouched(ops: seq<Op>, e: EdgeKey)
    requires forall i | 0 <= i < |ops| :: e !in EdgeDelta(ops[i])
    ensures e !in EdgesWritten(ops)
    decreases |ops|
  {
    if ops != [] {
      EdgeUntouched(ops[1..], e);
    }
  }

  /** A relationship every write of which sets at most the properties `keys` ends up with at
      most those properties. */
  lemma {:induction false} EdgeWriteKeys(ops: seq<Op>, e: EdgeKey, keys: set<string>)
    requires forall i | 0 <= i < |ops| :: e in EdgeDelta(ops[i]) ==> EdgeDelta(ops[i])[e].Keys <= keys
    ensures PropsOf(EdgesWritten(ops), e).Keys <= keys
    decreases |ops|
  {
    if ops != [] {
      EdgeWriteKeys(ops[1..], e, keys);
      OverlayAt(EdgeDelta(ops[0]), EdgesWritten(ops[1..]), e);
    }
  }

  /** A node none of whose writes SETs a property is written no property. */
  lemma {:induction false} NodeUntouched(ops: seq<Op>, n: NodeKey)
    requires forall i | 0 <= i < |ops| :: PropsOf(NodeDelta(ops[i]), n) == map[]
    ensures PropsOf(NodesWritten(ops), n) == map[]
    decreases |ops|
  {
    if ops != [] {
      NodeUntouched(ops[1..], n);
      OverlayAt(NodeDelta(ops[0]), NodesWritten(ops[1..]), n);
    }
  }

  /** Properties SET later replace those SET earlier: when the last write to `e` SETs every
      property any earlier write to `e` SETs, the relationship carries exactly what that last
      write SET. */
  lemma LastWriteWins(a: seq<Op>, w: Op, b: seq<Op>, e: EdgeKey)
    requires e in EdgeDelta(w)
    requires forall i | 0 <= i < |a| :: e in EdgeDelta(a[i]) ==> EdgeDelta(a[i])[e].Keys <= EdgeDelta(w)[e].Keys
    requires forall i | 0 <= i < |b| :: e !in EdgeDelta(b[i])
    ensures PropsOf(EdgesWritten(a + [w] + b), e) == EdgeDelta(w)[e]
  {
    var p := EdgeDelta(w)[e];
    var ea, ew, eb := EdgesWritten(a), EdgesWritten([w]), EdgesWritten(b);
    WrittenAppend(a + [w], b);
    WrittenAppend(a, [w]);
    EdgeUntouched(b, e);
    EdgeWriteKeys(a, e, p.Keys);
    SingleWrite(w);
    OverlayAt(ea, ew, e);
    OverlayAt(Overlay(ea, ew), eb, e);
    UnionCovered(PropsOf(ea, e), p);
    UnionCovered(map[], p);
  }

  lemma SingleWrite(w: Op)
    ensures EdgesWritten([w]) == EdgeDelta(w)
  {
    OverlayEmpty(EdgeDelta(w));
  }

  /** Properties SET later replace any earlier value of the same property. */
  lemma UnionCovered(x: Props, p: Props)
    requires x.Keys <= p.Keys
    ensures x + p == p && p + map[] == p
  {
  }

  // ----- the writes of a `for` loop -----

  /** The writes of `for k in range(lo, hi): body(k)`, in order. */
  function Loop(body: nat -> seq<Op>, lo: nat, hi: nat): seq<Op>
    requires lo <= hi
    decreases hi
  {
    if hi == lo then [] else Loop(body, lo, hi - 1) + body(hi - 1)
  }

  /** One more iteration appends the writes of its body. */
  lemma LoopNext(body: nat -> seq<Op>, lo: nat, hi: nat)
    requires lo <= hi
    ensures Loop(body, lo, hi + 1) == Loop(body, lo, hi) + body(hi)
  {
  }

  /** A loop over `[lo, hi)` is the loop over `[lo, mid)` followed by the loop over `[mid, hi)`. */
  lemma {:induction false} LoopSplit(body: nat -> seq<Op>, lo: nat, mid: nat, hi: nat)
    requires lo <= mid <= hi
    ensures Loop(body, lo, hi) == Loop(body, lo, mid) + Loop(body, mid, hi)
    decreases hi
  {
    if hi == mid {
      assert Loop(body, lo, mid) + [] == Loop(body, lo, mid);
    } else {
      LoopSplit(body, lo, mid, hi - 1);
      assert Loop(body, lo, mid) + Loop(body, mid, hi - 1) + body(hi - 1)
          == Loop(body, lo, mid) + (Loop(body, mid, hi - 1) + body(hi - 1));
    }
  }

  /** Every write of a loop is a write of one of its iterations ... */
  lemma {:induction false} LoopOnly(body: nat -> seq<Op>, lo: nat, hi: nat, op: Op)
    requires lo <= hi && op in Loop(body, lo, hi)
    ensures exists k :: lo <= k < hi && op in body(k)
    decreases hi
  {
    if op !in body(hi - 1) {
      LoopOnly(body, lo, hi - 1, op);
    }
  }

  /** ... and every write of every iteration is a write of the loop. */
  lemma {:induction false} LoopHas(body: nat -> seq<Op>, lo: nat, hi: nat, k: nat, op: Op)
    requires lo <= k < hi && op in body(k)
    ensures op in Loop(body, lo, hi)
    decreases hi
  {
    if k < hi - 1 {
      LoopHas(body, lo, hi - 1, k, op);
    }
  }

  /** No write of `ops` touches relationship `e`. */
  ghost predicate Misses(ops: seq<Op>, e: EdgeKey)
  {
    forall op | op in ops :: e !in EdgeDelta(op)
  }

  /** Every write of `ops` to relationship `e` SETs at most the properties `keys`. */
  ghost predicate SetsWithin(ops: seq<Op>, e: EdgeKey, keys: set<string>)
  {
    forall op | op in ops :: e in EdgeDelta(op) ==> EdgeDelta(op)[e].Keys <= keys
  }

  lemma MissesNothing(ops: seq<Op>, e: EdgeKey)
    requires Misses(ops, e)
    ensures PropsOf(EdgesWritten(ops), e) == map[]
  {
    assert forall i | 0 <= i < |ops| :: ops[i] in ops;
    EdgeUntouched(ops, e);
  }

  lemma LoopMisses(body: nat -> seq<Op>, lo: nat, hi: nat, e: EdgeKey)
    requires lo <= hi
    requires forall k | lo <= k < hi :: Misses(body(k), e)
    ensures Misses(Loop(body, lo, hi), e)
  {
    forall op | op in Loop(body, lo, hi) ensures e !in EdgeDelta(op) {
      LoopOnly(body, lo, hi, op);
    }
  }

  lemma LoopAround(body: nat -> seq<Op>, lo: nat, hi: nat, k: nat)
    requires lo <= k < hi
    ensures Loop(body, lo, hi) == Loop(body, lo, k) + (body(k) + Loop(body, k + 1, hi))
  {
    LoopSplit(body, lo, k, hi);
    LoopSplit(body, k, k + 1, hi);
    assert Loop(body, k, k + 1) == body(k) by {
      assert [] + body(k) == body(k);
    }
  }

  /** When no iteration but the `k`-th touches relationship `e`, the loop leaves on `e` what
      that iteration SETs. */
  lemma LoopFocus(body: nat -> seq<Op>, lo: nat, hi: nat, k: nat, e: EdgeKey)
    requires lo <= k < hi
    requires forall j | lo <= j < hi && j != k :: Misses(body(j), e)
    ensures PropsOf(EdgesWritten(Loop(body, lo, hi)), e) == PropsOf(EdgesWritten(body(k)), e)
  {
    LoopAround(body, lo, hi, k);
    LoopMisses(body, lo, k, e);
    LoopMisses(body, k + 1, hi, e);
    MissedAround(Loop(body, lo, hi), Loop(body, lo, k), body(k), Loop(body, k + 1, hi), e);
  }

  /** Writes before and after that miss `e` change nothing on it. */
  lemma MissedAround(x: seq<Op>, a: seq<Op>, b: seq<Op>, c: seq<Op>, e: EdgeKey)
    requires x == a + (b + c) && Misses(a, e) && Misses(c, e)
    ensures PropsOf(EdgesWritten(x), e) == PropsOf(EdgesWritten(b), e)
  {
    MissesNothing(a, e);
    MissesNothing(c, e);
    EdgePropsAppend(a, b + c, e);
    EdgePropsAppend(b, c, e);
    UnionCovered(map[], PropsOf(EdgesWritten(b), e));
  }

  lemma LoopSetsWithin(body: nat -> seq<Op>, lo: nat, hi: nat, e: EdgeKey, keys: set<string>)
    requires lo <= hi
    requires forall k | lo <= k < hi :: SetsWithin(body(k), e, keys)
    ensures SetsWithin(Loop(body, lo, hi), e, keys)
  {
    forall op | op in Loop(body, lo, hi) && e in EdgeDelta(op) ensures EdgeDelta(op)[e].Keys <= keys {
      LoopOnly(body, lo, hi, op);
    }
  }

  lemma SetsWithinKeys(ops: seq<Op>, e: EdgeKey, keys: set<string>)
    requires SetsWithin(ops, e, keys)
    ensures PropsOf(EdgesWritten(ops), e).Keys <= keys
  {
    assert forall i | 0 <= i < |ops| :: ops[i] in ops;
    EdgeWriteKeys(ops, e, keys);
  }

  /** Writes that SET at least what earlier writes SET on `e` leave there what they SET. */
  lemma LaterCovers(x: seq<Op>, a: seq<Op>, b: seq<Op>, e: EdgeKey)
    requires x == a + b
    requires PropsOf(EdgesWritten(a), e).Keys <= PropsOf(EdgesWritten(b), e).Keys
    ensures PropsOf(EdgesWritten(x), e) == PropsOf(EdgesWritten(b), e)
  {
    EdgePropsAppend(a, b, e);
    UnionCovered(PropsOf(EdgesWritten(a), e), PropsOf(EdgesWritten(b), e));
  }

  /** When the last iteration SETs on relationship `e` every property an earlier one SETs
      there, the loop leaves on `e` what the last iteration SETs. */
  lemma LoopLast(body: nat -> seq<Op>, lo: nat, hi: nat, e: EdgeKey, keys: set<string>)
    requires lo < hi
    requires forall k | lo <= k < hi - 1 :: SetsWithin(body(k), e, keys)
    requires PropsOf(EdgesWritten(body(hi - 1)), e).Keys == keys
    ensures PropsOf(EdgesWritten(Loop(body, lo, hi)), e) == PropsOf(EdgesWritten(body(hi - 1)), e)
  {
    LoopSetsWithin(body, lo, hi - 1, e, keys);
    SetsWithinKeys(Loop(body, lo, hi - 1), e, keys);
    LaterCovers(Loop(body, lo, hi), Loop(body, lo, hi - 1), body(hi - 1), e);
  }

  /** The state a write transaction leaves: all of its writes, or none of them when it raised
      an error and was rolled back. */
  function Commit(s: GraphState, ops: seq<Op>, failed: bool): GraphState
  {
    if failed then s else ApplyAll(s, ops)
  }

  /** The Neo4j database the scripts talk to. */
  class GraphStore {
    var nodes: map<NodeKey, Props>
    var edges: map<EdgeKey, Props>
    var created: multiset<EdgeKey>

    function State(): GraphState
      reads this
    {
      GraphState(nodes, edges, created)
    }

    /** A database holding nothing, as `MATCH (n) DETACH DELETE n` leaves it. */
    constructor ()
      ensures State() == Empty()
    {
      nodes, edges, created := map[], map[], multiset{};
    }

    /** `MATCH (n) DETACH DELETE n`. */
    method DeleteAll()
      modifies this
      ensures State() == Empty()
    {
      nodes, edges, created := map[], map[], multiset{};
    }

    method MergeNode(n: NodeKey, sets: Props)
      modifies this
      ensures nodes == old(nodes)[n := PropsOf(old(nodes), n) + sets]
      ensures edges == old(edges) && created == old(created)
    {
      nodes := nodes[n := PropsOf(nodes, n) + sets];
    }

    method MergeEdge(e: EdgeKey, sets: Props)
      modifies this
      ensures nodes == Touch(old(nodes), e)
      ensures edges == old(edges)[e := PropsOf(old(edges), e) + sets]
      ensures created == old(created)
    {
      nodes := Touch(nodes, e);
      edges := edges[e := PropsOf(edges, e) + sets];
    }

    method MatchMergeEdge(need: set<NodeKey>, e: EdgeKey, sets: Props)
      modifies this
      ensures nodes == old(nodes) && created == old(created)
      ensures edges == if need + {e.src, e.dst} <= old(nodes).Keys
                       then old(edges)[e := PropsOf(old(edges), e) + sets] else old(edges)
    {
      if need + {e.src, e.dst} <= nodes.Keys {
        edges := edges[e := PropsOf(edges, e) + sets];
      }
    }

    method CreateEdge(e: EdgeKey)
      modifies this
      ensures nodes == Touch(old(nodes), e)
      ensures edges == old(edges)
      ensures created == old(created) + multiset{e}
    {
      nodes := Touch(nodes, e);
      created := created + multiset{e};
    }

    /** Carries out one write. */
    method Run(op: Op)
      modifies this
      ensures State() == Apply(old(State()), op)
    {
      match op
      case NodeMerge(n, p) => MergeNode(n, p);
      case EdgeMerge(e, p) => MergeEdge(e, p);
      case MatchedEdgeMerge(need, e, p) => MatchMergeEdge(need, e, p);
      case EdgeCreate(e) => CreateEdge(e);
    }

    /** Carries out a script, one write after the other. */
    method RunAll(ops: seq<Op>)
      modifies this
      ensures State() == ApplyAll(old(State()), ops)
    {
      for i := 0 to |ops|
        invariant State() == ApplyAll(old(State()), ops[..i])
      {
        Run(ops[i]);
        ApplyAllSnoc(old(State()), ops[..i], ops[i]);
        assert ops[..i + 1] == ops[..i] + [ops[i]];
      }
      assert ops[..|ops|] == ops;
    }

    /** A rolled-back transaction: the database returns to the state it had when the
        transaction began. */
    method Restore(s: GraphState)
      modifies this
      ensures State() == s
    {
      nodes, edges, created := s.nodes, s.edges, s.created;
    }

    /** `session.write_transaction`: runs the writes a transaction function issued before it
        returned or raised, and rolls them back if it raised. */
    method Transact(ops: seq<Op>, failed: bool)
      modifies this
      ensures State() == Commit(old(State()), ops, failed)
    {
      var snapshot := State();
      RunAll(ops);
      if failed {
        Restore(snapshot);
      }
    }
  }
}
