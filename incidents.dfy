/** The incident loop the three networkx scripts share: src/knowledge_graph/7_knowledge_graph.py
    lines 71-110, src/run/7_knowledge_graph.py lines 55-95 and src/run/8_inference.py lines
    31-61.

    Every id an incident writes starts with the incident's own id `Incident_{idx+1}`: the
    hierarchy levels, the `_CFR_Root` fallback, the attribute nodes, the value nodes and the
    clause nodes. The incident loop also fills `incident_attr_values`, the table of value node
    ids per incident and attribute that the relation loop reads afterwards. */
module Incidents {
  import opened Text
  import opened DiGraphs
  import opened CfrGraph

  /** `f"Incident_{idx+1}"`. */
  function IncidentId(idx: nat): Node
  {
    "Incident_" + NatToString(idx + 1)
  }

  /** The incident node's attributes; the inference script sets only the type. */
  function IncidentAttrs(script: Script, idx: nat): Attrs
  {
    if script == Inference then map["type" := "Incident"]
    else map["type" := "Incident", "label" := "Incident " + NatToString(idx + 1)]
  }

  /** `f"{incident_id}_CFR_Root"`, the leaf of an incident without hierarchy levels. */
  function RootId(inc: Node): Node
  {
    inc + "_CFR_Root"
  }

  const RootAttrs: Attrs := map["label" := "No CFR Info", "type" := "CFR"]

  /** `cfr_leaf_node`: the last level, or the root when there are no levels. */
  function Leaf(inc: Node, levels: seq<string>): (leaf: Node)
    ensures |leaf| > |inc| && leaf[..|inc|] == inc
  {
    if levels == [] then RootId(inc) else LevelId(inc, |levels|)
  }

  /** The attribute node id: `f"{incident_id}_{attr_key.replace(' ', '_')}"`, and
      `f"{incident_id}_{attr_key}"` in the inference script. */
  function AttrId(script: Script, inc: Node, key: string): Node
  {
    inc + "_" + (if script == Inference then key else ReplaceChar(key, ' ', '_'))
  }

  /** The attribute node's attributes; the inference script sets only the type. */
  function AttrAttrs(script: Script, key: string): Attrs
  {
    if script == Inference then map["type" := key] else map["type" := key, "label" := key]
  }

  /** `f"{incident_id}_{attr_key}_{v_idx}"`. */
  function ValueId(inc: Node, key: string, v: nat): Node
  {
    inc + "_" + key + "_" + NatToString(v)
  }

  function ValueAttrs(val: string): Attrs
  {
    map["label" := val, "type" := "AttributeValue"]
  }

  /** `f"{incident_id}_{clause_str.replace(' ', '_')}"`. */
  function ClauseId(inc: Node, clause: string): Node
  {
    inc + "_" + ReplaceChar(clause, ' ', '_')
  }

  function ClauseAttrs(clause: string): Attrs
  {
    map["label" := clause, "type" := "CFR_Clause"]
  }

  /** `graph.add_edge(u, v, relation=rel)` for one of the relations the incident loop uses. */
  function Connect(g: Graph, u: Node, v: Node, rel: string): (r: Graph)
    requires rel in Structure
    ensures Grows(g, r) && (u, v) in r.edges
    ensures Valid(g) ==> Valid(r)
    ensures RelationsIn(g, Structure) ==> RelationsIn(r, Structure)
  {
    WithEdgeRelation(g, u, v, rel, Structure);
    WithEdge(g, u, v, Rel(rel))
  }

  /** `graph.add_node(n, **attrs)` followed by `graph.add_edge(u, n, relation=rel)`. */
  function Attach(g: Graph, u: Node, n: Node, attrs: Attrs, rel: string): (r: Graph)
    requires rel in Structure
    ensures Grows(g, r) && n in r.nodes && (u, n) in r.edges
    ensures Valid(g) ==> Valid(r)
    ensures RelationsIn(g, Structure) ==> RelationsIn(r, Structure)
  {
    Connect(WithNode(g, n, attrs), u, n, rel)
  }

  /** The clause block for one value of the "Clause" attribute: a `CFR_Clause` node for the
      citation found in it, with a `conforms_to` edge from the incident and a `specifies`
      edge from the leaf. Two scripts skip the block when the node is already there; the
      inference script always runs it. */
  function ClauseStep(g: Graph, script: Script, inc: Node, leaf: Node, val: string): (r: Graph)
    ensures Grows(g, r)
    ensures Valid(g) ==> Valid(r)
    ensures RelationsIn(g, Structure) ==> RelationsIn(r, Structure)
  {
    match ClauseMatch(val)
    case None => g
    case Some(c) =>
      var id := ClauseId(inc, c);
      if script != Inference && id in g.nodes then g
      else AddClauseNode(g, inc, leaf, id, c)
  }

  /** The body of the clause block: the `CFR_Clause` node `id` for citation `c`, its
      `conforms_to` edge from the incident and its `specifies` edge from the leaf. */
  function AddClauseNode(g: Graph, inc: Node, leaf: Node, id: Node, c: string): (r: Graph)
    ensures Grows(g, r) && id in r.nodes && (inc, id) in r.edges && (leaf, id) in r.edges
    ensures Valid(g) ==> Valid(r)
    ensures RelationsIn(g, Structure) ==> RelationsIn(r, Structure)
  {
    var h := Attach(g, inc, id, ClauseAttrs(c), "conforms_to");
    assert Grows(g, h) && id in h.nodes && (inc, id) in h.edges;
    Connect(h, leaf, id, "specifies")
  }

  /** One pass of the value loop: the value node, its `describes` edge from the attribute
      node, and for a "Clause" value the clause block. */
  function ValueStep(g: Graph, script: Script, inc: Node, key: string, attr: Node, leaf: Node, v: nat, val: string): (r: Graph)
    ensures Grows(g, r)
    ensures Valid(g) ==> Valid(r)
    ensures RelationsIn(g, Structure) ==> RelationsIn(r, Structure)
  {
    var h := Attach(g, attr, ValueId(inc, key, v), ValueAttrs(val), "describes");
    if key == "Clause" then ClauseStep(h, script, inc, leaf, val) else h
  }

  /** The value loop over `enumerate(values)`. */
  function Values(g: Graph, script: Script, inc: Node, key: string, attr: Node, leaf: Node, vals: seq<string>): (r: Graph)
    ensures Grows(g, r)
    ensures Valid(g) ==> Valid(r)
    ensures RelationsIn(g, Structure) ==> RelationsIn(r, Structure)
    decreases |vals|
  {
    if vals == [] then g
    else
      var n := |vals| - 1;
      ValueStep(Values(g, script, inc, key, attr, leaf, vals[..n]), script, inc, key, attr, leaf, n, vals[n])
  }

  /** One pass of the attribute loop: the attribute node, its `has_attribute` edge from the
      incident, then the value loop. */
  function AttrStep(g: Graph, script: Script, inc: Node, leaf: Node, key: string, vals: seq<string>): (r: Graph)
    ensures Grows(g, r)
    ensures Valid(g) ==> Valid(r)
    ensures RelationsIn(g, Structure) ==> RelationsIn(r, Structure)
  {
    var attr := AttrId(script, inc, key);
    Values(Attach(g, inc, attr, AttrAttrs(script, key), "has_attribute"), script, inc, key, attr, leaf, vals)
  }

  /** The attribute loop over `item["attributes"].items()`. */
  function Attributes(g: Graph, script: Script, inc: Node, leaf: Node, attrs: seq<(string, seq<string>)>): (r: Graph)
    ensures Grows(g, r)
    ensures Valid(g) ==> Valid(r)
    ensures RelationsIn(g, Structure) ==> RelationsIn(r, Structure)
    decreases |attrs|
  {
    if attrs == [] then g
    else
      var n := |attrs| - 1;
      AttrStep(Attributes(g, script, inc, leaf, attrs[..n]), script, inc, leaf, attrs[n].0, attrs[n].1)
  }

  /** One pass of the incident loop for the item at position `idx`, or `None` if reading its
      hierarchy raises. */
  function Incident(g: Graph, script: Script, idx: nat, item: Item): (r: Option<Graph>)
    ensures r.Some? ==> Grows(g, r.value)
    ensures r.Some? && Valid(g) ==> Valid(r.value)
    ensures r.Some? && RelationsIn(g, Structure) ==> RelationsIn(r.value, Structure)
  {
    var inc := IncidentId(idx);
    match Levels(script, item.cfr)
    case None => None
    case Some(levels) =>
      var h1 := Hierarchy(WithNode(g, inc, IncidentAttrs(script, idx)), inc, levels);
      var h2 := if levels == [] then WithNode(h1, RootId(inc), RootAttrs) else h1;
      Some(Attributes(Connect(h2, inc, Leaf(inc, levels), "classified_as"), script, inc, Leaf(inc, levels), item.attributes))
  }

  /** The incident loop over `enumerate(items)`, or `None` if some item raises. */
  function IncidentLoop(g: Graph, script: Script, items: seq<Item>): (r: Option<Graph>)
    ensures r.Some? ==> Grows(g, r.value)
    ensures r.Some? && Valid(g) ==> Valid(r.value)
    ensures r.Some? && RelationsIn(g, Structure) ==> RelationsIn(r.value, Structure)
    decreases |items|
  {
    if items == [] then Some(g)
    else
      var n := |items| - 1;
      match IncidentLoop(g, script, items[..n])
      case None => None
      case Some(h) => Incident(h, script, n, items[n])
  }

  /** `value_node_ids` for an attribute with `n` values. */
  function ValueIds(inc: Node, key: string, n: nat): (ids: seq<Node>)
    ensures |ids| == n
  {
    seq(n, v requires 0 <= v => ValueId(inc, key, v))
  }

  /** `attribute_values` once the attribute loop has run over `attrs`. */
  function AttrValues(inc: Node, attrs: seq<(string, seq<string>)>): (table: seq<(string, seq<Node>)>)
    ensures |table| == |attrs|
  {
    seq(|attrs|, i requires 0 <= i < |attrs| => (attrs[i].0, ValueIds(inc, attrs[i].0, |attrs[i].1|)))
  }

  /** `incident_attr_values` once the incident loop has run over `items`. */
  function AttrTable(items: seq<Item>): (table: seq<(Node, seq<(string, seq<Node>)>)>)
    ensures |table| == |items|
  {
    seq(|items|, i requires 0 <= i < |items| => (IncidentId(i), AttrValues(IncidentId(i), items[i].attributes)))
  }

  /** The clause block writes the clause node's attributes and its two edges exactly as the
      source does, and the two scripts that test `graph.has_node` first change nothing when
      the node is already there. */
  lemma ClauseStepEffect(g: Graph, script: Script, inc: Node, leaf: Node, val: string)
    ensures ClauseMatch(val).None? ==> ClauseStep(g, script, inc, leaf, val) == g
    ensures ClauseMatch(val).Some? ==>
      var c := ClauseMatch(val).value;
      var id := ClauseId(inc, c);
      var r := ClauseStep(g, script, inc, leaf, val);
      if script != Inference && id in g.nodes then r == g
      else
        (id in r.nodes && r.nodes[id] == AttrsOf(g.nodes, id) + ClauseAttrs(c)
         && HasRelation(r, leaf, id, "specifies")
         && (inc != leaf ==> HasRelation(r, inc, id, "conforms_to")))
  {
    match ClauseMatch(val)
    case None =>
    case Some(c) =>
      AddClauseNodeEffect(g, inc, leaf, ClauseId(inc, c), c);
  }

  /** What the body of the clause block writes. */
  lemma AddClauseNodeEffect(g: Graph, inc: Node, leaf: Node, id: Node, c: string)
    ensures var r := AddClauseNode(g, inc, leaf, id, c);
      id in r.nodes && r.nodes[id] == AttrsOf(g.nodes, id) + ClauseAttrs(c)
      && HasRelation(r, leaf, id, "specifies")
      && (inc != leaf ==> HasRelation(r, inc, id, "conforms_to"))
      && (inc != leaf ==> r.edges[(inc, id)] == AttrsOf(g.edges, (inc, id)) + Rel("conforms_to"))
      && (inc != leaf ==> r.edges[(leaf, id)] == AttrsOf(g.edges, (leaf, id)) + Rel("specifies"))
  {
    var h := Attach(g, inc, id, ClauseAttrs(c), "conforms_to");
    AttachEffect(g, inc, id, ClauseAttrs(c), "conforms_to");
    ConnectEffect(h, leaf, id, "specifies");
    RelAdded(AttrsOf(h.edges, (leaf, id)), "specifies");
    if inc != leaf {
      RelAdded(AttrsOf(g.edges, (inc, id)), "conforms_to");
    }
  }

  /** `graph.add_edge(u, v, relation=rel)` sets the relation of `(u, v)` and touches no node
      attribute and no other edge. */
  lemma ConnectEffect(g: Graph, u: Node, v: Node, rel: string)
    requires rel in Structure
    ensures var r := Connect(g, u, v, rel);
      r.edges[(u, v)] == AttrsOf(g.edges, (u, v)) + Rel(rel)
      && (forall m :: AttrsOf(r.nodes, m) == AttrsOf(g.nodes, m))
      && (forall e | e != (u, v) :: AttrsOf(r.edges, e) == AttrsOf(g.edges, e))
  {
  }

  /** `Attach` updates the attributes of `n` and sets the relation of `(u, n)` and touches no
      other edge. */
  lemma AttachEffect(g: Graph, u: Node, n: Node, attrs: Attrs, rel: string)
    requires rel in Structure
    ensures var r := Attach(g, u, n, attrs, rel);
      r.nodes[n] == AttrsOf(g.nodes, n) + attrs
      && r.edges[(u, n)] == AttrsOf(g.edges, (u, n)) + Rel(rel)
      && (forall e | e != (u, n) :: AttrsOf(r.edges, e) == AttrsOf(g.edges, e))
  {
    var h := WithNode(g, n, attrs);
    ConnectEffect(h, u, n, rel);
    assert AttrsOf(Attach(g, u, n, attrs, rel).nodes, n) == AttrsOf(h.nodes, n);
  }

  /** Adding `relation=rel` to a dictionary sets its relation to `rel`. */
  lemma RelAdded(a: Attrs, rel: string)
    ensures "relation" in a + Rel(rel) && (a + Rel(rel))["relation"] == rel
  {
  }

  /** Running the clause block twice for the same value is running it once: a citation that
      repeats within an incident gives one clause node with one edge of each kind, in the
      inference script too, where `add_node` and `add_edge` just rewrite what is there. */
  lemma ClauseStepTwice(g: Graph, script: Script, inc: Node, leaf: Node, val: string)
    requires inc != leaf
    ensures ClauseStep(ClauseStep(g, script, inc, leaf, val), script, inc, leaf, val) == ClauseStep(g, script, inc, leaf, val)
  {
    match ClauseMatch(val)
    case None =>
    case Some(c) =>
      var id := ClauseId(inc, c);
      var r := ClauseStep(g, script, inc, leaf, val);
      if script == Inference || id !in g.nodes {
        assert r == AddClauseNode(g, inc, leaf, id, c);
        AddClauseNodeEffect(g, inc, leaf, id, c);
        if script == Inference {
          UpdateTwice(AttrsOf(g.nodes, id), ClauseAttrs(c));
          WithNodePresent(r, id, ClauseAttrs(c));
          UpdateTwice(AttrsOf(g.edges, (inc, id)), Rel("conforms_to"));
          WithEdgePresent(r, inc, id, Rel("conforms_to"));
          UpdateTwice(AttrsOf(g.edges, (leaf, id)), Rel("specifies"));
          WithEdgePresent(r, leaf, id, Rel("specifies"));
          assert AddClauseNode(r, inc, leaf, id, c) == r;
        }
      }
  }

  /** Distinct positions give distinct incident ids. */
  lemma IncidentIdInjective(i: nat, j: nat)
    ensures IncidentId(i) == IncidentId(j) ==> i == j
  {
    if IncidentId(i) == IncidentId(j) {
      var p := "Incident_";
      assert NatToString(i + 1) == IncidentId(i)[|p|..];
      assert NatToString(j + 1) == IncidentId(j)[|p|..];
      NatToStringInjective(i + 1, j + 1);
    }
  }

  /** A value node id names its incident, its attribute and its position: no value node is
      shared between incidents, attributes or positions. */
  lemma ValueIdInjective(i: nat, key: string, v: nat, j: nat, key2: string, w: nat)
    ensures ValueId(IncidentId(i), key, v) == ValueId(IncidentId(j), key2, w) ==> i == j && key == key2 && v == w
  {
    if ValueId(IncidentId(i), key, v) == ValueId(IncidentId(j), key2, w) {
      ValueIdsEqual(i, key, v, j, key2, w);
    }
  }

  lemma ValueIdsEqual(i: nat, key: string, v: nat, j: nat, key2: string, w: nat)
    requires ValueId(IncidentId(i), key, v) == ValueId(IncidentId(j), key2, w)
    ensures i == j && key == key2 && v == w
  {
    var p := "Incident_";
    var a, b := NatToString(i + 1), NatToString(j + 1);
    var x, y := key + "_" + NatToString(v), key2 + "_" + NatToString(w);
    assert ValueId(IncidentId(i), key, v) == p + (a + "_" + x);
    assert ValueId(IncidentId(j), key2, w) == p + (b + "_" + y);
    assert a + "_" + x == (p + (a + "_" + x))[|p|..];
    assert b + "_" + y == (p + (b + "_" + y))[|p|..];
    DigitsPrefix(a, b, x, y);
    DigitsSuffix(key, key2, NatToString(v), NatToString(w));
    NatToStringInjective(i + 1, j + 1);
    NatToStringInjective(v, w);
  }

  /** After the clause block for `val`: the clause node of the citation found in it exists,
      and in the inference script, which never skips the block, so do its two edges. */
  predicate ClauseLinked(g: Graph, script: Script, inc: Node, leaf: Node, val: string)
  {
    ClauseMatch(val).Some? ==>
      var id := ClauseId(inc, ClauseMatch(val).value);
      id in g.nodes && (script == Inference ==> (inc, id) in g.edges && (leaf, id) in g.edges)
  }

  /** After the pass for value `v`: its node, its `describes` edge and, for a "Clause" value,
      its clause block. */
  predicate ValueLinked(g: Graph, script: Script, inc: Node, key: string, attr: Node, leaf: Node, v: nat, val: string)
  {
    ValueId(inc, key, v) in g.nodes && (attr, ValueId(inc, key, v)) in g.edges
    && (key == "Clause" ==> ClauseLinked(g, script, inc, leaf, val))
  }

  /** After the pass for one attribute: its node, its `has_attribute` edge and every value. */
  predicate AttributeLinked(g: Graph, script: Script, inc: Node, leaf: Node, key: string, vals: seq<string>)
  {
    var attr := AttrId(script, inc, key);
    attr in g.nodes && (inc, attr) in g.edges
    && forall v | 0 <= v < |vals| :: ValueLinked(g, script, inc, key, attr, leaf, v, vals[v])
  }

  /** After the pass for the item at `idx`: the incident node, the hierarchy chain, the leaf
      with its `classified_as` edge, and every attribute. */
  predicate IncidentLinked(g: Graph, script: Script, idx: nat, item: Item)
  {
    var inc := IncidentId(idx);
    match Levels(script, item.cfr)
    case None => false
    case Some(levels) =>
      var leaf := Leaf(inc, levels);
      inc in g.nodes && leaf in g.nodes && (inc, leaf) in g.edges
      && (forall k | 1 <= k <= |levels| :: LevelId(inc, k) in g.nodes)
      && (forall k | 1 <= k < |levels| :: (LevelId(inc, k), LevelId(inc, k + 1)) in g.edges)
      && forall i | 0 <= i < |item.attributes| :: AttributeLinked(g, script, inc, leaf, item.attributes[i].0, item.attributes[i].1)
  }

  /** Nothing the incident loop writes is ever removed, so what one pass links stays linked. */
  lemma AttributeLinkedGrows(g: Graph, h: Graph, script: Script, inc: Node, leaf: Node, key: string, vals: seq<string>)
    requires Grows(g, h) && AttributeLinked(g, script, inc, leaf, key, vals)
    ensures AttributeLinked(h, script, inc, leaf, key, vals)
  {
    var attr := AttrId(script, inc, key);
    forall v | 0 <= v < |vals| ensures ValueLinked(h, script, inc, key, attr, leaf, v, vals[v]) {
      assert ValueLinked(g, script, inc, key, attr, leaf, v, vals[v]);
    }
  }

  lemma IncidentLinkedGrows(g: Graph, h: Graph, script: Script, idx: nat, item: Item)
    requires Grows(g, h) && IncidentLinked(g, script, idx, item)
    ensures IncidentLinked(h, script, idx, item)
  {
    var inc := IncidentId(idx);
    var levels := Levels(script, item.cfr).value;
    var attrs := item.attributes;
    forall i | 0 <= i < |attrs| ensures AttributeLinked(h, script, inc, Leaf(inc, levels), attrs[i].0, attrs[i].1) {
      AttributeLinkedGrows(g, h, script, inc, Leaf(inc, levels), attrs[i].0, attrs[i].1);
    }
  }

  /** The clause block links the citation found in its value. */
  lemma ClauseStepLinked(g: Graph, script: Script, inc: Node, leaf: Node, val: string)
    ensures ClauseLinked(ClauseStep(g, script, inc, leaf, val), script, inc, leaf, val)
  {
  }

  /** The value loop links every value, with its position as index. */
  lemma {:induction false} ValuesLinked(g: Graph, script: Script, inc: Node, key: string, attr: Node, leaf: Node, vals: seq<string>)
    ensures var r := Values(g, script, inc, key, attr, leaf, vals);
      forall v | 0 <= v < |vals| :: ValueLinked(r, script, inc, key, attr, leaf, v, vals[v])
    decreases |vals|
  {
    if vals != [] {
      var n := |vals| - 1;
      var h := Values(g, script, inc, key, attr, leaf, vals[..n]);
      var r := Values(g, script, inc, key, attr, leaf, vals);
      ValuesLinked(g, script, inc, key, attr, leaf, vals[..n]);
      ValueStepLinked(h, script, inc, key, attr, leaf, n, vals[n]);
      ValuesGrow(h, r, script, inc, key, attr, leaf, vals[..n], vals);
    }
  }

  /** The inductive step of `ValuesLinked`, stated apart from how the graphs are built. */
  lemma ValuesGrow(h: Graph, r: Graph, script: Script, inc: Node, key: string, attr: Node, leaf: Node, init: seq<string>, vals: seq<string>)
    requires vals != [] && init == vals[..|vals| - 1] && Grows(h, r)
    requires forall v | 0 <= v < |init| :: ValueLinked(h, script, inc, key, attr, leaf, v, init[v])
    requires ValueLinked(r, script, inc, key, attr, leaf, |init|, vals[|init|])
    ensures forall v | 0 <= v < |vals| :: ValueLinked(r, script, inc, key, attr, leaf, v, vals[v])
  {
    forall v | 0 <= v < |init| ensures ValueLinked(r, script, inc, key, attr, leaf, v, vals[v]) {
      assert init[v] == vals[v];
      ValueLinkedGrows(h, r, script, inc, key, attr, leaf, v, vals[v]);
    }
  }

  lemma ValueStepLinked(g: Graph, script: Script, inc: Node, key: string, attr: Node, leaf: Node, v: nat, val: string)
    ensures ValueLinked(ValueStep(g, script, inc, key, attr, leaf, v, val), script, inc, key, attr, leaf, v, val)
  {
    var h := Attach(g, attr, ValueId(inc, key, v), ValueAttrs(val), "describes");
    if key == "Clause" {
      ClauseStepLinked(h, script, inc, leaf, val);
    }
  }

  lemma ValueLinkedGrows(g: Graph, h: Graph, script: Script, inc: Node, key: string, attr: Node, leaf: Node, v: nat, val: string)
    requires Grows(g, h) && ValueLinked(g, script, inc, key, attr, leaf, v, val)
    ensures ValueLinked(h, script, inc, key, attr, leaf, v, val)
  {
  }

  /** The attribute loop links every attribute of the item. */
  lemma {:induction false} AttributesLinked(g: Graph, script: Script, inc: Node, leaf: Node, attrs: seq<(string, seq<string>)>)
    ensures var r := Attributes(g, script, inc, leaf, attrs);
      forall i | 0 <= i < |attrs| :: AttributeLinked(r, script, inc, leaf, attrs[i].0, attrs[i].1)
    decreases |attrs|
  {
    if attrs != [] {
      var n := |attrs| - 1;
      var h := Attributes(g, script, inc, leaf, attrs[..n]);
      var r := Attributes(g, script, inc, leaf, attrs);
      AttributesLinked(g, script, inc, leaf, attrs[..n]);
      var attr := AttrId(script, inc, attrs[n].0);
      var h1 := Attach(h, inc, attr, AttrAttrs(script, attrs[n].0), "has_attribute");
      ValuesLinked(h1, script, inc, attrs[n].0, attr, leaf, attrs[n].1);
      AttrStepLinked(h1, r, script, inc, leaf, attrs[n].0, attrs[n].1);
      AttributesGrow(h, r, script, inc, leaf, attrs[..n], attrs);
    }
  }

  /** The attribute node and edge come before the value loop and stay. */
  lemma AttrStepLinked(h1: Graph, r: Graph, script: Script, inc: Node, leaf: Node, key: string, vals: seq<string>)
    requires AttrId(script, inc, key) in h1.nodes && (inc, AttrId(script, inc, key)) in h1.edges
    requires r == Values(h1, script, inc, key, AttrId(script, inc, key), leaf, vals)
    requires forall v | 0 <= v < |vals| :: ValueLinked(r, script, inc, key, AttrId(script, inc, key), leaf, v, vals[v])
    ensures AttributeLinked(r, script, inc, leaf, key, vals)
  {
  }

  /** The inductive step of `AttributesLinked`, stated apart from how the graphs are built. */
  lemma AttributesGrow(h: Graph, r: Graph, script: Script, inc: Node, leaf: Node, init: seq<(string, seq<string>)>, attrs: seq<(string, seq<string>)>)
    requires attrs != [] && init == attrs[..|attrs| - 1] && Grows(h, r)
    requires forall i | 0 <= i < |init| :: AttributeLinked(h, script, inc, leaf, init[i].0, init[i].1)
    requires AttributeLinked(r, script, inc, leaf, attrs[|init|].0, attrs[|init|].1)
    ensures forall i | 0 <= i < |attrs| :: AttributeLinked(r, script, inc, leaf, attrs[i].0, attrs[i].1)
  {
    forall i | 0 <= i < |init| ensures AttributeLinked(r, script, inc, leaf, attrs[i].0, attrs[i].1) {
      assert init[i] == attrs[i];
      AttributeLinkedGrows(h, r, script, inc, leaf, attrs[i].0, attrs[i].1);
    }
  }

  /** A pass of the incident loop that does not raise links everything it read. */
  lemma IncidentBuilt(g: Graph, script: Script, idx: nat, item: Item)
    ensures Incident(g, script, idx, item).Some? ==> IncidentLinked(Incident(g, script, idx, item).value, script, idx, item)
  {
    var inc := IncidentId(idx);
    match Levels(script, item.cfr)
    case None =>
    case Some(levels) =>
      var h0 := WithNode(g, inc, IncidentAttrs(script, idx));
      var h1 := Hierarchy(h0, inc, levels);
      HierarchyNodes(h0, inc, levels);
      HierarchyChain(h0, inc, levels);
      var h2 := if levels == [] then WithNode(h1, RootId(inc), RootAttrs) else h1;
      var leaf := Leaf(inc, levels);
      var h3 := Connect(h2, inc, leaf, "classified_as");
      var r := Attributes(h3, script, inc, leaf, item.attributes);
      AttributesLinked(h3, script, inc, leaf, item.attributes);
      HierarchyKept(h1, r, inc, levels);
      assert leaf in r.nodes && (inc, leaf) in r.edges;
  }

  /** The hierarchy nodes and edges stay in every graph the hierarchy grows into. */
  lemma HierarchyKept(h: Graph, r: Graph, inc: Node, levels: seq<string>)
    requires Grows(h, r)
    requires forall k | 1 <= k <= |levels| :: LevelId(inc, k) in h.nodes
    requires forall k | 1 <= k < |levels| :: HasRelation(h, LevelId(inc, k), LevelId(inc, k + 1), "has_subcategory")
    ensures forall k | 1 <= k <= |levels| :: LevelId(inc, k) in r.nodes
    ensures forall k | 1 <= k < |levels| :: (LevelId(inc, k), LevelId(inc, k + 1)) in r.edges
  {
  }

  /** The incident loop raises exactly when the hierarchy of some item raises, that is when
      one of its `content_1` to `content_4` entries is a truthy non-string
      (`CfrGraph.CompactRaises`); the filtering script never raises. */
  lemma {:induction false} IncidentLoopRaises(g: Graph, script: Script, items: seq<Item>)
    ensures IncidentLoop(g, script, items).None? <==> exists i | 0 <= i < |items| :: Levels(script, items[i].cfr).None?
    ensures script == Filtering ==> IncidentLoop(g, script, items).Some?
    decreases |items|
  {
    if items != [] {
      var n := |items| - 1;
      var init := items[..n];
      IncidentLoopRaises(g, script, init);
      CompactRaises(script, Cells(items[n].cfr));
      match IncidentLoop(g, script, init)
      case None =>
        var i :| 0 <= i < n && Levels(script, init[i].cfr).None?;
        assert init[i] == items[i];
      case Some(h) =>
        IncidentRaises(h, script, n, items[n]);
        if Levels(script, items[n].cfr).Some? {
          assert forall i | 0 <= i < n :: Levels(script, init[i].cfr).Some?;
          forall i | 0 <= i < |items| ensures Levels(script, items[i].cfr).Some? {
            if i < n {
              assert init[i] == items[i];
            } else {
              assert i == n;
            }
          }
        }
    }
  }

  /** A pass of the incident loop raises exactly when reading the item's hierarchy does. */
  lemma IncidentRaises(g: Graph, script: Script, idx: nat, item: Item)
    ensures Incident(g, script, idx, item).None? <==> Levels(script, item.cfr).None?
  {
  }

  /** When the incident loop does not raise, every item is linked in the final graph. */
  lemma {:induction false} IncidentLoopLinked(g: Graph, script: Script, items: seq<Item>)
    ensures IncidentLoop(g, script, items).Some? ==>
      forall i | 0 <= i < |items| :: IncidentLinked(IncidentLoop(g, script, items).value, script, i, items[i])
    decreases |items|
  {
    if items != [] {
      var n := |items| - 1;
      IncidentLoopLinked(g, script, items[..n]);
      match IncidentLoop(g, script, items[..n])
      case None =>
      case Some(h) =>
        IncidentBuilt(h, script, n, items[n]);
        match Incident(h, script, n, items[n])
        case None =>
        case Some(r) =>
          IncidentLoopGrow(h, r, script, items[..n], items);
    }
  }

  /** The inductive step of `IncidentLoopLinked`, stated apart from how the graphs are built. */
  lemma IncidentLoopGrow(h: Graph, r: Graph, script: Script, init: seq<Item>, items: seq<Item>)
    requires items != [] && init == items[..|items| - 1] && Grows(h, r)
    requires forall i | 0 <= i < |init| :: IncidentLinked(h, script, i, init[i])
    requires IncidentLinked(r, script, |init|, items[|init|])
    ensures forall i | 0 <= i < |items| :: IncidentLinked(r, script, i, items[i])
  {
    forall i | 0 <= i < |init| ensures IncidentLinked(r, script, i, items[i]) {
      assert init[i] == items[i];
      IncidentLinkedGrows(h, r, script, i, items[i]);
    }
  }

  /** `add_cfr_hierarchy(graph, cfr_content, base_id)`: the first loop reads the four entries,
      the second writes the levels; the result is `cfr_nodes`, or `None` where `c.strip()`
      raises. */
  method AddCfrHierarchy(g: DiGraph, script: Script, cfr: map<string, Cell>, base: Node) returns (levels: Option<seq<string>>)
    modifies g
    ensures levels == Levels(script, cfr)
    ensures levels.Some? ==> g.State() == Hierarchy(old(g.State()), base, levels.value)
  {
    var cells := Cells(cfr);
    var texts: seq<string> := [];
    assert cells[..0] == [];
    for i := 0 to 4
      invariant Compact(script, cells[..i]) == Some(texts)
      invariant g.State() == old(g.State())
    {
      var c := cells[i];
      CompactNext(script, cells, i);
      if Raises(script, c) {
        CompactStops(script, cells, i + 1);
        return None;
      }
      if Passes(c) {
        texts := texts + [Strip(c.s)];
      }
    }
    assert cells[..4] == cells;
    assert texts[..0] == [];
    for k := 0 to |texts|
      invariant g.State() == Hierarchy(old(g.State()), base, texts[..k])
    {
      AddLevelTo(g, base, k + 1, texts[k]);
      HierarchyNext(old(g.State()), base, texts, k);
    }
    assert texts[..|texts|] == texts;
    return Some(texts);
  }

  lemma CompactNext(script: Script, cells: seq<Cell>, i: nat)
    requires i < |cells|
    ensures Compact(script, cells[..i + 1]) ==
      match Compact(script, cells[..i])
      case None => None
      case Some(prefix) =>
        if Raises(script, cells[i]) then None
        else if Passes(cells[i]) then Some(prefix + [Strip(cells[i].s)])
        else Some(prefix)
  {
    assert cells[..i + 1][..i] == cells[..i];
  }

  lemma HierarchyNext(g: Graph, base: Node, levels: seq<string>, k: nat)
    requires k < |levels|
    ensures Hierarchy(g, base, levels[..k + 1]) == AddLevel(Hierarchy(g, base, levels[..k]), base, k + 1, levels[k])
  {
    assert levels[..k + 1][..k] == levels[..k];
  }

  /** One pass of the second loop of `add_cfr_hierarchy`. */
  method AddLevelTo(g: DiGraph, base: Node, k: nat, text: string)
    modifies g
    ensures g.State() == AddLevel(old(g.State()), base, k, text)
  {
    g.AddNode(LevelId(base, k), LevelAttrs(text));
    if k > 1 {
      g.AddEdge(LevelId(base, k - 1), LevelId(base, k), Rel("has_subcategory"));
    }
  }

  /** The clause block of the value loop. */
  method AddClause(g: DiGraph, script: Script, inc: Node, leaf: Node, val: string)
    modifies g
    ensures g.State() == ClauseStep(old(g.State()), script, inc, leaf, val)
  {
    var found := ClauseMatch(val);
    if found.Some? {
      var id := ClauseId(inc, found.value);
      if script == Inference || !g.HasNode(id) {
        ghost var s0 := g.State();
        g.AddNode(id, ClauseAttrs(found.value));
        g.AddEdge(inc, id, Rel("conforms_to"));
        g.AddEdge(leaf, id, Rel("specifies"));
        AddClauseNodeSteps(s0, inc, leaf, id, found.value);
      }
    }
  }

  lemma AddClauseNodeSteps(g: Graph, inc: Node, leaf: Node, id: Node, c: string)
    ensures AddClauseNode(g, inc, leaf, id, c)
      == WithEdge(WithEdge(WithNode(g, id, ClauseAttrs(c)), inc, id, Rel("conforms_to")), leaf, id, Rel("specifies"))
  {
  }

  /** The value loop of one attribute; the result is `value_node_ids`. */
  method AddValues(g: DiGraph, script: Script, inc: Node, key: string, attr: Node, leaf: Node, vals: seq<string>)
    returns (ids: seq<Node>)
    modifies g
    ensures g.State() == Values(old(g.State()), script, inc, key, attr, leaf, vals)
    ensures ids == ValueIds(inc, key, |vals|)
  {
    ids := [];
    for v := 0 to |vals|
      invariant g.State() == Values(old(g.State()), script, inc, key, attr, leaf, vals[..v])
      invariant ids == ValueIds(inc, key, v)
    {
      var id := AddValue(g, script, inc, key, attr, leaf, v, vals[v]);
      ids := ids + [id];
      ValuesNext(old(g.State()), script, inc, key, attr, leaf, vals, v);
      ValueIdsNext(inc, key, v);
    }
    assert vals[..|vals|] == vals;
  }

  lemma ValuesNext(g: Graph, script: Script, inc: Node, key: string, attr: Node, leaf: Node, vals: seq<string>, v: nat)
    requires v < |vals|
    ensures Values(g, script, inc, key, attr, leaf, vals[..v + 1])
      == ValueStep(Values(g, script, inc, key, attr, leaf, vals[..v]), script, inc, key, attr, leaf, v, vals[v])
  {
    assert vals[..v + 1][..v] == vals[..v];
  }

  lemma ValueIdsNext(inc: Node, key: string, v: nat)
    ensures ValueIds(inc, key, v + 1) == ValueIds(inc, key, v) + [ValueId(inc, key, v)]
  {
    var a, b := ValueIds(inc, key, v + 1), ValueIds(inc, key, v) + [ValueId(inc, key, v)];
    assert forall k | 0 <= k < v + 1 :: a[k] == b[k];
  }

  /** One pass of the value loop; the result is the value node id. */
  method AddValue(g: DiGraph, script: Script, inc: Node, key: string, attr: Node, leaf: Node, v: nat, val: string)
    returns (id: Node)
    modifies g
    ensures g.State() == ValueStep(old(g.State()), script, inc, key, attr, leaf, v, val)
    ensures id == ValueId(inc, key, v)
  {
    id := ValueId(inc, key, v);
    g.AddNode(id, ValueAttrs(val));
    g.AddEdge(attr, id, Rel("describes"));
    if key == "Clause" {
      AddClause(g, script, inc, leaf, val);
    }
  }

  /** The attribute loop of one incident; the result is `attribute_values`. */
  method AddAttributes(g: DiGraph, script: Script, inc: Node, leaf: Node, attrs: seq<(string, seq<string>)>)
    returns (table: seq<(string, seq<Node>)>)
    modifies g
    ensures g.State() == Attributes(old(g.State()), script, inc, leaf, attrs)
    ensures table == AttrValues(inc, attrs)
  {
    table := [];
    for i := 0 to |attrs|
      invariant g.State() == Attributes(old(g.State()), script, inc, leaf, attrs[..i])
      invariant table == AttrValues(inc, attrs[..i])
    {
      var ids := AddAttribute(g, script, inc, leaf, attrs[i].0, attrs[i].1);
      table := table + [(attrs[i].0, ids)];
      AttributesNext(old(g.State()), script, inc, leaf, attrs, i);
      AttrValuesNext(inc, attrs, i);
    }
    assert attrs[..|attrs|] == attrs;
  }

  lemma AttributesNext(g: Graph, script: Script, inc: Node, leaf: Node, attrs: seq<(string, seq<string>)>, i: nat)
    requires i < |attrs|
    ensures Attributes(g, script, inc, leaf, attrs[..i + 1])
      == AttrStep(Attributes(g, script, inc, leaf, attrs[..i]), script, inc, leaf, attrs[i].0, attrs[i].1)
  {
    assert attrs[..i + 1][..i] == attrs[..i];
  }

  lemma AttrValuesNext(inc: Node, attrs: seq<(string, seq<string>)>, i: nat)
    requires i < |attrs|
    ensures AttrValues(inc, attrs[..i + 1]) == AttrValues(inc, attrs[..i]) + [(attrs[i].0, ValueIds(inc, attrs[i].0, |attrs[i].1|))]
  {
    var a, b := AttrValues(inc, attrs[..i + 1]), AttrValues(inc, attrs[..i]) + [(attrs[i].0, ValueIds(inc, attrs[i].0, |attrs[i].1|))];
    assert forall k | 0 <= k < i + 1 :: a[k] == b[k];
  }

  /** One pass of the attribute loop; the result is `value_node_ids`. */
  method AddAttribute(g: DiGraph, script: Script, inc: Node, leaf: Node, key: string, vals: seq<string>)
    returns (ids: seq<Node>)
    modifies g
    ensures g.State() == AttrStep(old(g.State()), script, inc, leaf, key, vals)
    ensures ids == ValueIds(inc, key, |vals|)
  {
    var attr := AttrId(script, inc, key);
    g.AddNode(attr, AttrAttrs(script, key));
    g.AddEdge(inc, attr, Rel("has_attribute"));
    ids := AddValues(g, script, inc, key, attr, leaf, vals);
  }

  /** One pass of the incident loop; `ok` is false where the source raises. */
  method AddIncident(g: DiGraph, script: Script, idx: nat, item: Item) returns (ok: bool, table: seq<(string, seq<Node>)>)
    modifies g
    ensures ok == Incident(old(g.State()), script, idx, item).Some?
    ensures ok ==> g.State() == Incident(old(g.State()), script, idx, item).value
    ensures ok ==> table == AttrValues(IncidentId(idx), item.attributes)
  {
    var inc := IncidentId(idx);
    g.AddNode(inc, IncidentAttrs(script, idx));
    var levels := AddCfrHierarchy(g, script, item.cfr, inc);
    if levels.None? {
      return false, [];
    }
    var leaf := Leaf(inc, levels.value);
    if levels.value == [] {
      g.AddNode(leaf, RootAttrs);
    }
    g.AddEdge(inc, leaf, Rel("classified_as"));
    table := AddAttributes(g, script, inc, leaf, item.attributes);
    ok := true;
  }

  /** The incident loop over all items; the result is `incident_attr_values`, and `ok` is false
      where the source raises. */
  method AddIncidents(g: DiGraph, script: Script, items: seq<Item>) returns (ok: bool, table: seq<(Node, seq<(string, seq<Node>)>)>)
    modifies g
    ensures ok == IncidentLoop(old(g.State()), script, items).Some?
    ensures ok ==> g.State() == IncidentLoop(old(g.State()), script, items).value
    ensures ok ==> table == AttrTable(items)
  {
    table := [];
    for i := 0 to |items|
      invariant IncidentLoop(old(g.State()), script, items[..i]) == Some(g.State())
      invariant table == AttrTable(items[..i])
    {
      IncidentLoopNext(old(g.State()), script, items, i);
      var incOk, attrValues := AddIncident(g, script, i, items[i]);
      if !incOk {
        IncidentLoopStops(old(g.State()), script, items, i + 1);
        return false, [];
      }
      table := table + [(IncidentId(i), attrValues)];
      AttrTableNext(items, i);
    }
    assert items[..|items|] == items;
    ok := true;
  }

  lemma IncidentLoopNext(g: Graph, script: Script, items: seq<Item>, i: nat)
    requires i < |items|
    ensures IncidentLoop(g, script, items[..i + 1]) ==
      match IncidentLoop(g, script, items[..i])
      case None => None
      case Some(h) => Incident(h, script, i, items[i])
  {
    assert items[..i + 1][..i] == items[..i];
  }

  lemma AttrTableNext(items: seq<Item>, i: nat)
    requires i < |items|
    ensures AttrTable(items[..i + 1]) == AttrTable(items[..i]) + [(IncidentId(i), AttrValues(IncidentId(i), items[i].attributes))]
  {
    var a, b := AttrTable(items[..i + 1]), AttrTable(items[..i]) + [(IncidentId(i), AttrValues(IncidentId(i), items[i].attributes))];
    assert forall k | 0 <= k < i + 1 :: a[k] == b[k];
  }

  /** The incident loop stops at the first item that raises. */
  lemma {:induction false} IncidentLoopStops(g: Graph, script: Script, items: seq<Item>, i: nat)
    requires i <= |items| && IncidentLoop(g, script, items[..i]).None?
    ensures IncidentLoop(g, script, items).None?
    decreases |items|
  {
    if i < |items| {
      var init := items[..|items| - 1];
      assert init[..i] == items[..i];
      IncidentLoopStops(g, script, init, i);
    } else {
      assert items[..i] == items;
    }
  }
}
