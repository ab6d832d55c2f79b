/** The relation loop of the two knowledge-graph scripts (src/knowledge_graph/7_knowledge_graph.py
    lines 112-124, src/run/7_knowledge_graph.py lines 97-111): for every incident, every
    ordered pair of distinct attribute names that `RELATION_MAP` maps, and every source and
    target value node of those attributes, an edge labelled with the mapped relation.

    The loop is modelled as the list of `add_edge` calls it makes, in order (`AllWrites`), and
    the graph it leaves is those calls applied one after the other (`Apply`). */
module Relations {
  import opened Text
  import opened DiGraphs
  import opened CfrGraph
  import opened Incidents

  /** `RELATION_MAP`, the same fourteen entries in both scripts. */
  const RelationMap: map<(string, string), string> := map[
    ("Event", "Cause") := "Causes",
    ("Event", "Influence") := "Results In",
    ("Event", "Corrective Actions") := "Mitigated By",
    ("Event", "Similar Events") := "Related To",
    ("Cause", "Event") := "Explains",
    ("Cause", "Influence") := "Leads To",
    ("Influence", "Corrective Actions") := "Addressed By",
    ("Influence", "Guideline") := "Guided By",
    ("Corrective Actions", "Guideline") := "Recommended By",
    ("Corrective Actions", "Event") := "Addresses",
    ("Similar Events", "Cause") := "Shares Cause",
    ("Guideline", "Clause") := "Contains",
    ("Guideline", "Event") := "Referenced By",
    ("Clause", "Corrective Actions") := "Suggests"
  ]

  /** The pair of attribute names gets edges: the names differ and the map has the pair. */
  predicate Mapped(a: string, b: string)
  {
    a != b && (a, b) in RelationMap
  }

  /** One `graph.add_edge(s_node, t_node, relation=relation_label)`. */
  datatype Write = Write(s: Node, t: Node, rel: string)

  /** `attribute_values` of one incident: each attribute name with its value node ids. */
  type Table = seq<(string, seq<Node>)>

  /** The edges written for one source node: one per target node, in order. */
  function Row(s: Node, ts: seq<Node>, rel: string): (ws: seq<Write>)
    ensures |ws| == |ts|
  {
    seq(|ts|, j requires 0 <= j < |ts| => Write(s, ts[j], rel))
  }

  /** The two innermost loops: every source node to every target node. */
  function PairWrites(ss: seq<Node>, ts: seq<Node>, rel: string): seq<Write>
    decreases |ss|
  {
    if ss == [] then []
    else PairWrites(ss[..|ss| - 1], ts, rel) + Row(ss[|ss| - 1], ts, rel)
  }

  /** The target loop for source attribute `a` with value nodes `ss`. */
  function TargetWrites(a: string, ss: seq<Node>, targets: Table): seq<Write>
    decreases |targets|
  {
    if targets == [] then []
    else
      var b := targets[|targets| - 1];
      TargetWrites(a, ss, targets[..|targets| - 1])
      + (if Mapped(a, b.0) then PairWrites(ss, b.1, RelationMap[(a, b.0)]) else [])
  }

  /** The source loop over `sources`, each against every attribute of `attrs`. */
  function SourceWrites(sources: Table, attrs: Table): seq<Write>
    decreases |sources|
  {
    if sources == [] then []
    else
      var a := sources[|sources| - 1];
      SourceWrites(sources[..|sources| - 1], attrs) + TargetWrites(a.0, a.1, attrs)
  }

  /** The relation loop over `incident_attr_values`. */
  function AllWrites(table: seq<(Node, Table)>): seq<Write>
    decreases |table|
  {
    if table == [] then []
    else AllWrites(table[..|table| - 1]) + SourceWrites(table[|table| - 1].1, table[|table| - 1].1)
  }

  /** The graph after the calls `ws`, in order. */
  function Apply(g: Graph, ws: seq<Write>): (r: Graph)
    ensures Grows(g, r)
    ensures Valid(g) ==> Valid(r)
    decreases |ws|
  {
    if ws == [] then g
    else
      var w := ws[|ws| - 1];
      WithEdge(Apply(g, ws[..|ws| - 1]), w.s, w.t, Rel(w.rel))
  }

  /** Calls in sequence: applying `a + b` is applying `a`, then `b`. */
  lemma {:induction false} ApplyAppend(g: Graph, a: seq<Write>, b: seq<Write>)
    ensures Apply(g, a + b) == Apply(Apply(g, a), b)
    decreases |b|
  {
    if b == [] {
      assert a + b == a;
    } else {
      var n := |b| - 1;
      assert (a + b)[..|a + b| - 1] == a + b[..n];
      ApplyAppend(g, a, b[..n]);
    }
  }

  /** The edge `s -> t` with the relation `rel`, written by `w`. */
  ghost predicate Hit(a: string, ss: seq<Node>, target: (string, seq<Node>), w: Write)
  {
    Mapped(a, target.0) && w.s in ss && w.t in target.1 && w.rel == RelationMap[(a, target.0)]
  }

  /** Some target attribute of `targets` gets the call `w` from the source attribute `a`
      with value nodes `ss`. */
  ghost predicate TargetHit(a: string, ss: seq<Node>, targets: Table, w: Write)
  {
    exists j | 0 <= j < |targets| :: Hit(a, ss, targets[j], w)
  }

  /** Some source attribute of `sources` gets the call `w` to an attribute of `attrs`. */
  ghost predicate SourceHit(sources: Table, attrs: Table, w: Write)
  {
    exists i | 0 <= i < |sources| :: TargetHit(sources[i].0, sources[i].1, attrs, w)
  }

  /** The calls the loop is meant to make: within one incident, from a value node of an
      attribute to a value node of another attribute whose pair of names the map relates,
      with the mapped relation. */
  ghost predicate Prescribed(table: seq<(Node, Table)>, w: Write)
  {
    exists p | 0 <= p < |table| :: SourceHit(table[p].1, table[p].1, w)
  }

  /** The innermost loops make exactly the calls from a node of `ss` to a node of `ts`. */
  lemma {:induction false} PairWritesIn(ss: seq<Node>, ts: seq<Node>, rel: string, w: Write)
    ensures w in PairWrites(ss, ts, rel) <==> w.s in ss && w.t in ts && w.rel == rel
    decreases |ss|
  {
    if ss != [] {
      var n := |ss| - 1;
      PairWritesIn(ss[..n], ts, rel, w);
      assert ss == ss[..n] + [ss[n]];
      if w.s == ss[n] && w.t in ts && w.rel == rel {
        var j :| 0 <= j < |ts| && ts[j] == w.t;
        assert Row(ss[n], ts, rel)[j] == w;
      }
    }
  }

  /** The target loop makes exactly the calls to attributes whose names the map relates
      to `a`. */
  lemma {:induction false} TargetWritesIn(a: string, ss: seq<Node>, targets: Table, w: Write)
    ensures w in TargetWrites(a, ss, targets) <==> TargetHit(a, ss, targets, w)
    decreases |targets|
  {
    if targets != [] {
      var n := |targets| - 1;
      var b := targets[n];
      TargetWritesIn(a, ss, targets[..n], w);
      if Mapped(a, b.0) {
        PairWritesIn(ss, b.1, RelationMap[(a, b.0)], w);
      }
      TargetHitLast(a, ss, targets, w);
    }
  }

  /** A target attribute gets the call when one before the last does or the last does. */
  lemma TargetHitLast(a: string, ss: seq<Node>, targets: Table, w: Write)
    requires targets != []
    ensures TargetHit(a, ss, targets, w)
        <==> TargetHit(a, ss, targets[..|targets| - 1], w) || Hit(a, ss, targets[|targets| - 1], w)
  {
    var n := |targets| - 1;
    if TargetHit(a, ss, targets, w) {
      var j :| 0 <= j < |targets| && Hit(a, ss, targets[j], w);
      if j < n {
        assert targets[..n][j] == targets[j];
      }
    }
    if TargetHit(a, ss, targets[..n], w) {
      var j :| 0 <= j < n && Hit(a, ss, targets[..n][j], w);
      assert targets[..n][j] == targets[j];
    }
  }

  /** The source loop makes exactly the calls of its source attributes. */
  lemma {:induction false} SourceWritesIn(sources: Table, attrs: Table, w: Write)
    ensures w in SourceWrites(sources, attrs) <==> SourceHit(sources, attrs, w)
    decreases |sources|
  {
    if sources != [] {
      var n := |sources| - 1;
      var a := sources[n];
      SourceWritesIn(sources[..n], attrs, w);
      TargetWritesIn(a.0, a.1, attrs, w);
      SourceHitLast(sources, attrs, w);
    }
  }

  /** A source attribute gets the call when one before the last does or the last does. */
  lemma SourceHitLast(sources: Table, attrs: Table, w: Write)
    requires sources != []
    ensures SourceHit(sources, attrs, w)
        <==> SourceHit(sources[..|sources| - 1], attrs, w)
             || TargetHit(sources[|sources| - 1].0, sources[|sources| - 1].1, attrs, w)
  {
    var n := |sources| - 1;
    if SourceHit(sources, attrs, w) {
      var i :| 0 <= i < |sources| && TargetHit(sources[i].0, sources[i].1, attrs, w);
      if i < n {
        assert sources[..n][i] == sources[i];
      }
    }
    if SourceHit(sources[..n], attrs, w) {
      var i :| 0 <= i < n && TargetHit(sources[..n][i].0, sources[..n][i].1, attrs, w);
      assert sources[..n][i] == sources[i];
    }
  }

  /** The relation loop makes exactly the prescribed calls. */
  lemma {:induction false} AllWritesIn(table: seq<(Node, Table)>, w: Write)
    ensures w in AllWrites(table) <==> Prescribed(table, w)
    decreases |table|
  {
    if table != [] {
      var n := |table| - 1;
      AllWritesIn(table[..n], w);
      SourceWritesIn(table[n].1, table[n].1, w);
      PrescribedLast(table, w);
    }
  }

  /** A call is prescribed when an incident before the last prescribes it or the last does. */
  lemma PrescribedLast(table: seq<(Node, Table)>, w: Write)
    requires table != []
    ensures Prescribed(table, w)
        <==> Prescribed(table[..|table| - 1], w) || SourceHit(table[|table| - 1].1, table[|table| - 1].1, w)
  {
    var n := |table| - 1;
    if Prescribed(table, w) {
      var p :| 0 <= p < |table| && SourceHit(table[p].1, table[p].1, w);
      if p < n {
        assert table[..n][p] == table[p];
      }
    }
    if Prescribed(table[..n], w) {
      var p :| 0 <= p < n && SourceHit(table[..n][p].1, table[..n][p].1, w);
      assert table[..n][p] == table[p];
    }
  }

  /** No value node is listed under two different attribute names, in any incident. */
  ghost predicate Unambiguous(table: seq<(Node, Table)>)
  {
    forall p, i, q, k, n |
      0 <= p < |table| && 0 <= i < |table[p].1| && 0 <= q < |table| && 0 <= k < |table[q].1|
      && n in table[p].1[i].1 && n in table[q].1[k].1 ::
      table[p].1[i].0 == table[q].1[k].0
  }

  /** The attribute names a prescribed call comes from and goes to. */
  lemma PrescribedKeys(table: seq<(Node, Table)>, w: Write)
    returns (p: nat, i: nat, j: nat)
    requires Prescribed(table, w)
    ensures p < |table| && i < |table[p].1| && j < |table[p].1|
    ensures Hit(table[p].1[i].0, table[p].1[i].1, table[p].1[j], w)
  {
    p :| 0 <= p < |table| && SourceHit(table[p].1, table[p].1, w);
    i :| 0 <= i < |table[p].1| && TargetHit(table[p].1[i].0, table[p].1[i].1, table[p].1, w);
    j :| 0 <= j < |table[p].1| && Hit(table[p].1[i].0, table[p].1[i].1, table[p].1[j], w);
  }

  /** When value nodes name their attribute, two prescribed calls on the same pair of nodes
      carry the same relation, so the order of the calls does not matter. */
  lemma PrescribedUnique(table: seq<(Node, Table)>, w1: Write, w2: Write)
    requires Unambiguous(table)
    requires Prescribed(table, w1) && Prescribed(table, w2)
    requires w1.s == w2.s && w1.t == w2.t
    ensures w1.rel == w2.rel
  {
    var p1, i1, j1 := PrescribedKeys(table, w1);
    var p2, i2, j2 := PrescribedKeys(table, w2);
    assert table[p1].1[i1].0 == table[p2].1[i2].0 by {
      assert w1.s in table[p1].1[i1].1 && w1.s in table[p2].1[i2].1;
    }
    assert table[p1].1[j1].0 == table[p2].1[j2].0 by {
      assert w1.t in table[p1].1[j1].1 && w1.t in table[p2].1[j2].1;
    }
  }

  /** One more call at the end. */
  lemma ApplySnoc(g: Graph, ws: seq<Write>, w: Write)
    ensures Apply(g, ws + [w]) == WithEdge(Apply(g, ws), w.s, w.t, Rel(w.rel))
  {
    assert (ws + [w])[..|ws|] == ws;
  }

  /** `e` is the pair of nodes of one of the calls `ws`. */
  ghost predicate Written(ws: seq<Write>, e: (Node, Node))
  {
    exists w | w in ws :: e == (w.s, w.t)
  }

  /** The calls add exactly their own pairs of nodes as edges. */
  lemma {:induction false} ApplyEdges(g: Graph, ws: seq<Write>)
    ensures forall e :: e in Apply(g, ws).edges <==> e in g.edges || Written(ws, e)
    decreases |ws|
  {
    if ws != [] {
      var n := |ws| - 1;
      ApplyEdges(g, ws[..n]);
      assert ws == ws[..n] + [ws[n]];
      forall e | Written(ws, e)
        ensures e in g.edges || Written(ws[..n], e) || e == (ws[n].s, ws[n].t)
      {
        var w :| w in ws && e == (w.s, w.t);
        if w != ws[n] {
          assert w in ws[..n];
        }
      }
    }
  }

  /** The calls never change a node's attributes. */
  lemma {:induction false} ApplyNodes(g: Graph, ws: seq<Write>)
    ensures forall m :: AttrsOf(Apply(g, ws).nodes, m) == AttrsOf(g.nodes, m)
    decreases |ws|
  {
    if ws != [] {
      ApplyNodes(g, ws[..|ws| - 1]);
    }
  }

  /** The calls keep every relation within `rels` when each of their own relations is. */
  lemma {:induction false} ApplyRelations(g: Graph, ws: seq<Write>, rels: set<string>)
    requires RelationsIn(g, rels)
    requires forall w | w in ws :: w.rel in rels
    ensures RelationsIn(Apply(g, ws), rels)
    decreases |ws|
  {
    if ws != [] {
      var n := |ws| - 1;
      assert forall w | w in ws[..n] :: w in ws;
      ApplyRelations(g, ws[..n], rels);
      assert ws[n] in ws;
      WithEdgeRelation(Apply(g, ws[..n]), ws[n].s, ws[n].t, ws[n].rel, rels);
    }
  }

  /** The last call on a pair of nodes decides its relation: when every call on the pair of
      `w` carries the relation of `w`, the edge ends up with that relation. */
  lemma {:induction false} ApplyLabel(g: Graph, ws: seq<Write>, w: Write)
    requires w in ws
    requires forall k | 0 <= k < |ws| && ws[k].s == w.s && ws[k].t == w.t :: ws[k].rel == w.rel
    ensures HasRelation(Apply(g, ws), w.s, w.t, w.rel)
    decreases |ws|, 1
  {
    var n := |ws| - 1;
    var prev := Apply(g, ws[..n]);
    var last := ws[n];
    assert Apply(g, ws) == WithEdge(prev, last.s, last.t, Rel(last.rel));
    if last.s == w.s && last.t == w.t {
      assert last.rel == w.rel;
      assert Apply(g, ws).edges[(w.s, w.t)] == AttrsOf(prev.edges, (w.s, w.t)) + Rel(w.rel);
    } else {
      ApplyLabelEarlier(g, ws, w);
      assert AttrsOf(Apply(g, ws).edges, (w.s, w.t)) == AttrsOf(prev.edges, (w.s, w.t));
    }
  }

  /** The step of `ApplyLabel` when the last call is on another pair of nodes. */
  lemma {:induction false} ApplyLabelEarlier(g: Graph, ws: seq<Write>, w: Write)
    requires w in ws && ws[|ws| - 1] != w
    requires forall k | 0 <= k < |ws| && ws[k].s == w.s && ws[k].t == w.t :: ws[k].rel == w.rel
    ensures HasRelation(Apply(g, ws[..|ws| - 1]), w.s, w.t, w.rel)
    decreases |ws|, 0
  {
    var n := |ws| - 1;
    var k :| 0 <= k < |ws| && ws[k] == w;
    assert ws[..n][k] == w;
    assert forall k | 0 <= k < n :: ws[..n][k] == ws[k];
    ApplyLabel(g, ws[..n], w);
  }

  /** The relations `RELATION_MAP` can give. */
  function MappedRelations(): (rels: set<string>)
    ensures forall a, b | Mapped(a, b) :: RelationMap[(a, b)] in rels
  {
    RelationMap.Values
  }

  /** What the relation loop does to the graph `g` the incident loop left, when no value node
      is listed under two attribute names: every prescribed call leaves its edge with its
      relation, the only new edges are prescribed ones, no node's attributes change, and
      every relation stays within those already used and the mapped ones. */
  lemma RelationPhase(g: Graph, table: seq<(Node, Table)>, rels: set<string>)
    requires Unambiguous(table)
    ensures var r := Apply(g, AllWrites(table));
      && (forall w | Prescribed(table, w) :: HasRelation(r, w.s, w.t, w.rel))
      && (forall e :: e in r.edges <==> e in g.edges || exists w | Prescribed(table, w) :: e == (w.s, w.t))
      && (forall m :: AttrsOf(r.nodes, m) == AttrsOf(g.nodes, m))
      && (RelationsIn(g, rels) ==> RelationsIn(r, rels + MappedRelations()))
  {
    var ws := AllWrites(table);
    var r := Apply(g, ws);
    forall w
      ensures w in ws <==> Prescribed(table, w)
    {
      AllWritesIn(table, w);
    }
    forall w | Prescribed(table, w)
      ensures HasRelation(r, w.s, w.t, w.rel)
    {
      forall k | 0 <= k < |ws| && ws[k].s == w.s && ws[k].t == w.t
        ensures ws[k].rel == w.rel
      {
        assert ws[k] in ws;
        PrescribedUnique(table, ws[k], w);
      }
      ApplyLabel(g, ws, w);
    }
    ApplyEdges(g, ws);
    ApplyNodes(g, ws);
    if RelationsIn(g, rels) {
      forall w | w in ws
        ensures w.rel in rels + MappedRelations()
      {
        var p, i, j := PrescribedKeys(table, w);
      }
      assert RelationsIn(g, rels + MappedRelations());
      ApplyRelations(g, ws, rels + MappedRelations());
    }
  }

  /** The value nodes the incident loop records never name two attributes: each value id
      spells its incident and its attribute name. */
  lemma AttrTableUnambiguous(items: seq<Item>)
    ensures Unambiguous(AttrTable(items))
  {
    var table := AttrTable(items);
    forall p, i, q, k, n |
      0 <= p < |table| && 0 <= i < |table[p].1| && 0 <= q < |table| && 0 <= k < |table[q].1|
      && n in table[p].1[i].1 && n in table[q].1[k].1
      ensures table[p].1[i].0 == table[q].1[k].0
    {
      var a, b := items[p].attributes[i].0, items[q].attributes[k].0;
      var v :| 0 <= v < |table[p].1[i].1| && table[p].1[i].1[v] == n;
      var u :| 0 <= u < |table[q].1[k].1| && table[q].1[k].1[u] == n;
      assert n == ValueId(IncidentId(p), a, v);
      assert n == ValueId(IncidentId(q), b, u);
      ValueIdInjective(p, a, v, q, b, u);
    }
  }

  /** The relation loop joins value nodes of one incident only: both ends of a prescribed
      call are value ids of the same incident, under the attribute names the map relates. */
  lemma WritesWithinIncident(items: seq<Item>, w: Write)
    requires Prescribed(AttrTable(items), w)
    ensures exists p: nat, a, v: nat, b, u: nat | p < |items| && Mapped(a, b) ::
      w.s == ValueId(IncidentId(p), a, v) && w.t == ValueId(IncidentId(p), b, u)
      && w.rel == RelationMap[(a, b)]
  {
    var table := AttrTable(items);
    var p, i, j := PrescribedKeys(table, w);
    var a, b := items[p].attributes[i].0, items[p].attributes[j].0;
    var v :| 0 <= v < |table[p].1[i].1| && table[p].1[i].1[v] == w.s;
    var u :| 0 <= u < |table[p].1[j].1| && table[p].1[j].1[u] == w.t;
    assert w.s == ValueId(IncidentId(p), a, v);
    assert w.t == ValueId(IncidentId(p), b, u);
  }
  /** `for t_node in attrs[target_attr]: graph.add_edge(s_node, t_node, relation=...)`. */
  method LinkRow(g: DiGraph, s: Node, ts: seq<Node>, rel: string)
    modifies g
    ensures g.State() == Apply(old(g.State()), Row(s, ts, rel))
  {
    for j := 0 to |ts|
      invariant g.State() == Apply(old(g.State()), Row(s, ts[..j], rel))
    {
      g.AddEdge(s, ts[j], Rel(rel));
      RowNext(s, ts, rel, j);
      ApplySnoc(old(g.State()), Row(s, ts[..j], rel), Write(s, ts[j], rel));
    }
    assert ts[..|ts|] == ts;
  }

  lemma RowNext(s: Node, ts: seq<Node>, rel: string, j: nat)
    requires j < |ts|
    ensures Row(s, ts[..j + 1], rel) == Row(s, ts[..j], rel) + [Write(s, ts[j], rel)]
  {
    var a, b := Row(s, ts[..j + 1], rel), Row(s, ts[..j], rel) + [Write(s, ts[j], rel)];
    assert forall k | 0 <= k < j + 1 :: a[k] == b[k];
  }

  /** The two innermost loops, from every node of `ss` to every node of `ts`. */
  method LinkAll(g: DiGraph, ss: seq<Node>, ts: seq<Node>, rel: string)
    modifies g
    ensures g.State() == Apply(old(g.State()), PairWrites(ss, ts, rel))
  {
    for i := 0 to |ss|
      invariant g.State() == Apply(old(g.State()), PairWrites(ss[..i], ts, rel))
    {
      assert ss[..i + 1][..i] == ss[..i];
      LinkRow(g, ss[i], ts, rel);
      ApplyAppend(old(g.State()), PairWrites(ss[..i], ts, rel), Row(ss[i], ts, rel));
    }
    assert ss[..|ss|] == ss;
  }

  /** The target loop for the source attribute `a` with value nodes `ss`. */
  method RelateSource(g: DiGraph, a: string, ss: seq<Node>, attrs: Table)
    modifies g
    ensures g.State() == Apply(old(g.State()), TargetWrites(a, ss, attrs))
  {
    for j := 0 to |attrs|
      invariant g.State() == Apply(old(g.State()), TargetWrites(a, ss, attrs[..j]))
    {
      TargetWritesNext(a, ss, attrs, j);
      var b := attrs[j];
      if a == b.0 {
        continue;
      }
      if (a, b.0) in RelationMap {
        LinkAll(g, ss, b.1, RelationMap[(a, b.0)]);
        ApplyAppend(old(g.State()), TargetWrites(a, ss, attrs[..j]), PairWrites(ss, b.1, RelationMap[(a, b.0)]));
      }
    }
    assert attrs[..|attrs|] == attrs;
  }

  lemma TargetWritesNext(a: string, ss: seq<Node>, attrs: Table, j: nat)
    requires j < |attrs|
    ensures Mapped(a, attrs[j].0) ==>
      TargetWrites(a, ss, attrs[..j + 1]) == TargetWrites(a, ss, attrs[..j]) + PairWrites(ss, attrs[j].1, RelationMap[(a, attrs[j].0)])
    ensures !Mapped(a, attrs[j].0) ==> TargetWrites(a, ss, attrs[..j + 1]) == TargetWrites(a, ss, attrs[..j])
  {
    assert attrs[..j + 1][..j] == attrs[..j];
  }

  /** The source loop over the attributes of one incident. */
  method RelateIncident(g: DiGraph, attrs: Table)
    modifies g
    ensures g.State() == Apply(old(g.State()), SourceWrites(attrs, attrs))
  {
    for i := 0 to |attrs|
      invariant g.State() == Apply(old(g.State()), SourceWrites(attrs[..i], attrs))
    {
      assert attrs[..i + 1][..i] == attrs[..i];
      RelateSource(g, attrs[i].0, attrs[i].1, attrs);
      ApplyAppend(old(g.State()), SourceWrites(attrs[..i], attrs), TargetWrites(attrs[i].0, attrs[i].1, attrs));
    }
    assert attrs[..|attrs|] == attrs;
  }

  /** The relation loop over `incident_attr_values`; with `RelationPhase` it leaves every
      prescribed edge with its relation and adds nothing else. */
  method RelateIncidents(g: DiGraph, table: seq<(Node, Table)>)
    modifies g
    ensures g.State() == Apply(old(g.State()), AllWrites(table))
  {
    for p := 0 to |table|
      invariant g.State() == Apply(old(g.State()), AllWrites(table[..p]))
    {
      assert table[..p + 1][..p] == table[..p];
      RelateIncident(g, table[p].1);
      ApplyAppend(old(g.State()), AllWrites(table[..p]), SourceWrites(table[p].1, table[p].1));
    }
    assert table[..|table|] == table;
  }
}
