/** What the two Neo4j ingestion scripts (`knowledge_graph/8_kg.py` and
    `knowledge_graph/8_kg_HSI.py`) share: the node keys they MERGE on, the CFR nodes of Step 2,
    the writes one incident record turns into, and Step 3, one write transaction per record.

    Every write is a MERGE, so what a record leaves in the database is described by sets of node
    and relationship keys (`RecordNodes`, `RecordEdges`) that do not depend on the order of the
    writes, and ingesting a record twice leaves the database as ingesting it once. */
module IncidentIngest {
  import opened Text
  import opened Records
  import opened PropertyGraph

  datatype CfrText = CfrText(upper: string, lower: string)

  /** `cfr_dict`: for each CFR citation, its `content_3` and `content_4` texts. */
  type CfrDict = map<string, CfrText>

  /** `(i:Incident {filename: $filename})` */
  function IncidentNode(filename: string): NodeKey
  {
    NodeKey("Incident", [filename])
  }

  /** `(n:Label {description: $item})` */
  function ValueNode(nodeLabel: string, item: string): NodeKey
  {
    NodeKey(nodeLabel, [item])
  }

  /** `(f:Facility {name: $facility_name, unit: $facility_unit})` */
  function FacilityNode(name: string, unit: string): NodeKey
  {
    NodeKey("Facility", [name, unit])
  }

  /** `(c:CFR {cfr: $cfr})` */
  function CfrNode(clause: string): NodeKey
  {
    NodeKey("CFR", [clause])
  }

  /** `SET c.upper = $upper, c.lower = $lower` */
  function CfrProps(t: CfrText): Props
  {
    map["upper" := Str(t.upper), "lower" := Str(t.lower)]
  }

  /** `SET i.title = $title, i.date = $date` */
  function IncidentProps(title: string, date: string): Props
  {
    map["title" := Str(title), "date" := Str(date)]
  }

  // ----- Step 2: one CFR node per entry of cfr_dict -----

  /** The CFR nodes of the citations in `done`, with their texts. */
  function CfrNodes(cfr: CfrDict, done: set<string>): map<NodeKey, Props>
  {
    map c | c in done * cfr.Keys :: CfrNode(c) := CfrProps(cfr[c])
  }

  lemma CfrNodesAdd(cfr: CfrDict, done: set<string>, c: string)
    requires c in cfr && c !in done
    ensures CfrNode(c) !in CfrNodes(cfr, done)
    ensures CfrNodes(cfr, done + {c}) == CfrNodes(cfr, done)[CfrNode(c) := CfrProps(cfr[c])]
  {
  }

  /** Adding one more citation to the CFR nodes already written is one more node MERGE. */
  lemma CfrNodesStep(m: map<NodeKey, Props>, cfr: CfrDict, todo: set<string>, c: string, before: map<NodeKey, Props>)
    requires c in todo && todo <= cfr.Keys
    requires before == Overlay(m, CfrNodes(cfr, cfr.Keys - todo))
    ensures Overlay(m, CfrNodes(cfr, cfr.Keys - (todo - {c})))
         == before[CfrNode(c) := PropsOf(before, CfrNode(c)) + CfrProps(cfr[c])]
  {
    var done := cfr.Keys - todo;
    assert cfr.Keys - (todo - {c}) == done + {c};
    CfrNodesAdd(cfr, done, c);
    OverlayAdd(m, CfrNodes(cfr, done), CfrNode(c), CfrProps(cfr[c]));
  }

  lemma CfrNodesNone(m: map<NodeKey, Props>, cfr: CfrDict)
    ensures Overlay(m, CfrNodes(cfr, cfr.Keys - cfr.Keys)) == m
  {
    assert CfrNodes(cfr, cfr.Keys - cfr.Keys) == map[];
    OverlayEmpty(m);
  }

  /** The nodes once the citations outside `todo` have been written over `m`. */
  function Step2Nodes(m: map<NodeKey, Props>, cfr: CfrDict, todo: set<string>): map<NodeKey, Props>
  {
    Overlay(m, CfrNodes(cfr, cfr.Keys - todo))
  }

  /** Step 2 (`insert_cfr_nodes` for every entry of `cfr_dict`, in whatever order the dictionary
      yields them): every citation gets its CFR node carrying its two texts, and nothing else
      is written. */
  method InsertCfrNodes(g: GraphStore, cfr: CfrDict)
    modifies g
    ensures g.nodes == Overlay(old(g.nodes), CfrNodes(cfr, cfr.Keys))
    ensures g.edges == old(g.edges) && g.created == old(g.created)
  {
    var todo := cfr.Keys;
    ghost var nodes0, edges0, created0 := g.nodes, g.edges, g.created;
    CfrNodesNone(g.nodes, cfr);
    while todo != {}
      invariant todo <= cfr.Keys
      invariant g.nodes == Step2Nodes(nodes0, cfr, todo)
      invariant g.edges == edges0 && g.created == created0
      decreases todo
    {
      var c :| c in todo;
      CfrNodesStep(nodes0, cfr, todo, c, g.nodes);
      g.MergeNode(CfrNode(c), CfrProps(cfr[c]));
      todo := todo - {c};
    }
    assert cfr.Keys - {} == cfr.Keys;
  }

  // ----- Step 3: the writes of one record -----

  /** An attribute of the record, the label of its value nodes and the type of the relationship
      from the incident to them. */
  datatype AttrRule = AttrRule(name: string, nodeLabel: string, rel: string)

  /** Both scripts label the values of "Corrective Actions" with the attribute name without its
      space (`attribute.replace(' ', '')`). */
  lemma CorrectiveActionsLabel(s: string)
    requires s == "Corrective Actions"
    ensures RemoveChar(s, ' ') == "CorrectiveActions"
  {
    RemoveSpaceJoin(s, "Corrective", "Actions");
  }

  /** The attribute rules a script follows, and which record entries it indexes with `[...]`
      (so that their absence raises `KeyError`) rather than reading with `.get`. */
  datatype Script = Script(rules: seq<AttrRule>, taskRequired: bool, clauseRequired: bool)

  /** `MERGE (n:Label {description: $item}) MERGE (i:Incident ...) MERGE (i)-[:REL]->(n)` for
      each value of one attribute, in order. */
  function ItemOps(inc: NodeKey, rule: AttrRule, items: seq<string>): seq<Op>
  {
    if items == [] then []
    else [EdgeMerge(EdgeKey(inc, rule.rel, ValueNode(rule.nodeLabel, items[0])), map[])] + ItemOps(inc, rule, items[1..])
  }

  /** The item writes of every attribute rule, rule after rule. */
  function RuleOps(inc: NodeKey, r: Record, rules: seq<AttrRule>): seq<Op>
  {
    if rules == [] then [] else ItemOps(inc, rules[0], Items(r, rules[0].name)) + RuleOps(inc, r, rules[1..])
  }

  /** `MERGE (cl:CFR {cfr: $clause}) SET cl.upper = $upper, cl.lower = $lower`, then the
      REGULATED_BY relationship from the incident. */
  function ClausePieceOps(inc: NodeKey, cfr: CfrDict, c: string): seq<Op>
    requires c in cfr
  {
    [NodeMerge(CfrNode(c), CfrProps(cfr[c])), EdgeMerge(EdgeKey(inc, "REGULATED_BY", CfrNode(c)), map[])]
  }

  /** For each piece of the clause string, a CFR MERGE with its texts and a REGULATED_BY
      relationship, when the piece is a key of `cfr_dict`; nothing otherwise. */
  function ClauseOps(inc: NodeKey, cfr: CfrDict, parts: seq<string>): seq<Op>
  {
    if parts == [] then []
    else
      (if parts[0] in cfr then ClausePieceOps(inc, cfr, parts[0]) else []) + ClauseOps(inc, cfr, parts[1..])
  }

  function FacilityOp(inc: NodeKey, name: string, unit: string): Op
  {
    EdgeMerge(EdgeKey(inc, "OCCURRED_AT", FacilityNode(name, unit)), map[])
  }

  /** The writes a transaction function issued, and whether it then raised. */
  datatype Outcome = Outcome(ops: seq<Op>, failed: bool)

  predicate HasFacility(m: Metadata)
  {
    m.facility.Some? && m.facility.value.name.Some? && m.facility.value.unit.Some?
  }

  /** `metadata.get("clause", "")`, or `metadata["clause"]` once its presence is checked. */
  function ClauseText(m: Metadata): string
  {
    if m.clause.Some? then m.clause.value else ""
  }

  /** The clause string cut at every ", ", pieces untrimmed. */
  function ClauseParts(m: Metadata): seq<string>
  {
    Split(ClauseText(m), ", ")
  }

  /** `insert_nodes_and_relationships(tx, event_data)`: the Incident MERGE, the attribute items,
      the facility and the clauses, stopping at the first entry that is missing. */
  function IngestRecord(sc: Script, cfr: CfrDict, r: Record): Outcome
  {
    var m := r.metadata;
    var inc := IncidentNode(r.filename);
    if m.title.None? || m.eventDate.None? then Outcome([], true)
    else
      var first := [NodeMerge(inc, IncidentProps(m.title.value, m.eventDate.value))];
      if sc.taskRequired && "Task" !in r.attributes then Outcome(first, true)
      else
        var head := first + RuleOps(inc, r, sc.rules);
        if !HasFacility(m) then Outcome(head, true)
        else
          var fac := [FacilityOp(inc, m.facility.value.name.value, m.facility.value.unit.value)];
          if sc.clauseRequired && m.clause.None? then Outcome(head + fac, true)
          else Outcome(head + fac + ClauseOps(inc, cfr, ClauseParts(m)), false)
  }

  /** The state one record's write transaction leaves. */
  function IngestState(sc: Script, cfr: CfrDict, s: GraphState, r: Record): GraphState
  {
    var o := IngestRecord(sc, cfr, r);
    Commit(s, o.ops, o.failed)
  }

  // ----- what a record writes, as sets -----

  /** The value nodes of the record's attributes. */
  function RuleNodes(r: Record, rules: seq<AttrRule>): set<NodeKey>
  {
    set ru, x | ru in rules && x in Items(r, ru.name) :: ValueNode(ru.nodeLabel, x)
  }

  function RuleEdges(inc: NodeKey, r: Record, rules: seq<AttrRule>): set<EdgeKey>
  {
    set ru, x | ru in rules && x in Items(r, ru.name) :: EdgeKey(inc, ru.rel, ValueNode(ru.nodeLabel, x))
  }

  /** The CFR nodes of the clause pieces that are keys of `cfr_dict`. */
  function ClauseNodes(cfr: CfrDict, parts: seq<string>): set<NodeKey>
  {
    set c | c in parts && c in cfr :: CfrNode(c)
  }

  function ClauseEdges(inc: NodeKey, cfr: CfrDict, parts: seq<string>): set<EdgeKey>
  {
    set c | c in parts && c in cfr :: EdgeKey(inc, "REGULATED_BY", CfrNode(c))
  }

  /** Every node a successfully ingested record MERGEs. */
  function RecordNodes(sc: Script, cfr: CfrDict, r: Record): set<NodeKey>
    requires Complete(r.metadata)
  {
    var f := r.metadata.facility.value;
    {IncidentNode(r.filename)} + RuleNodes(r, sc.rules) + {FacilityNode(f.name.value, f.unit.value)}
    + ClauseNodes(cfr, ClauseParts(r.metadata))
  }

  /** Every relationship a successfully ingested record MERGEs. */
  function RecordEdges(sc: Script, cfr: CfrDict, r: Record): set<EdgeKey>
    requires Complete(r.metadata)
  {
    var f := r.metadata.facility.value;
    var inc := IncidentNode(r.filename);
    RuleEdges(inc, r, sc.rules) + {EdgeKey(inc, "OCCURRED_AT", FacilityNode(f.name.value, f.unit.value))}
    + ClauseEdges(inc, cfr, ClauseParts(r.metadata))
  }

  /** No write of `ops` SETs a property of node `n`. */
  ghost predicate SetsNothingOn(ops: seq<Op>, n: NodeKey)
  {
    forall i | 0 <= i < |ops| :: PropsOf(NodeDelta(ops[i]), n) == map[]
  }

  lemma MergeOnlyAppend(a: seq<Op>, b: seq<Op>)
    requires MergeOnly(a) && MergeOnly(b)
    ensures MergeOnly(a + b)
  {
    forall i | 0 <= i < |a + b| ensures (a + b)[i].NodeMerge? || (a + b)[i].EdgeMerge? {
      if i >= |a| {
        assert (a + b)[i] == b[i - |a|];
      }
    }
  }

  lemma SetsNothingOnAppend(a: seq<Op>, b: seq<Op>, n: NodeKey)
    requires SetsNothingOn(a, n) && SetsNothingOn(b, n)
    ensures SetsNothingOn(a + b, n)
  {
    forall i | 0 <= i < |a + b| ensures PropsOf(NodeDelta((a + b)[i]), n) == map[] {
      if i >= |a| {
        assert (a + b)[i] == b[i - |a|];
      }
    }
  }

  lemma WrittenKeysAppend(a: seq<Op>, b: seq<Op>)
    ensures NodesWritten(a + b).Keys == NodesWritten(a).Keys + NodesWritten(b).Keys
    ensures EdgesWritten(a + b).Keys == EdgesWritten(a).Keys + EdgesWritten(b).Keys
  {
    WrittenAppend(a, b);
  }

  lemma NodeKeysAppend(a: seq<Op>, b: seq<Op>)
    ensures NodesWritten(a + b).Keys == NodesWritten(a).Keys + NodesWritten(b).Keys
  {
    WrittenKeysAppend(a, b);
  }

  lemma EdgeKeysAppend(a: seq<Op>, b: seq<Op>)
    ensures EdgesWritten(a + b).Keys == EdgesWritten(a).Keys + EdgesWritten(b).Keys
  {
    WrittenKeysAppend(a, b);
  }

  /** A relationship MERGE SETs no node property. */
  lemma EdgeMergeSetsNothing(e: EdgeKey, n: NodeKey)
    ensures PropsOf(NodeDelta(EdgeMerge(e, map[])), n) == map[]
  {
  }

  lemma SingleNodeWrite(op: Op)
    ensures NodesWritten([op]) == NodeDelta(op)
  {
    OverlayEmpty(NodeDelta(op));
  }

  /** The relationship MERGE of an attribute value also MERGEs the incident and the value node. */
  lemma {:induction false} ItemOpsMergeOnly(inc: NodeKey, rule: AttrRule, items: seq<string>)
    ensures MergeOnly(ItemOps(inc, rule, items))
    decreases |items|
  {
    if items != [] {
      var op := EdgeMerge(EdgeKey(inc, rule.rel, ValueNode(rule.nodeLabel, items[0])), map[]);
      ItemOpsMergeOnly(inc, rule, items[1..]);
      MergeOnlyAppend([op], ItemOps(inc, rule, items[1..]));
    }
  }

  lemma {:induction false} ItemOpsEdges(inc: NodeKey, rule: AttrRule, items: seq<string>)
    ensures EdgesWritten(ItemOps(inc, rule, items)).Keys
         == set x | x in items :: EdgeKey(inc, rule.rel, ValueNode(rule.nodeLabel, x))
    decreases |items|
  {
    if items != [] {
      var e := EdgeKey(inc, rule.rel, ValueNode(rule.nodeLabel, items[0]));
      var op := EdgeMerge(e, map[]);
      ItemOpsEdges(inc, rule, items[1..]);
      WrittenKeysAppend([op], ItemOps(inc, rule, items[1..]));
      SingleWrite(op);
      ItemSetsCons(inc, rule, items);
    }
  }

  lemma ItemSetsCons(inc: NodeKey, rule: AttrRule, items: seq<string>)
    requires items != []
    ensures (set x | x in items :: EdgeKey(inc, rule.rel, ValueNode(rule.nodeLabel, x)))
         == {EdgeKey(inc, rule.rel, ValueNode(rule.nodeLabel, items[0]))}
            + (set x | x in items[1..] :: EdgeKey(inc, rule.rel, ValueNode(rule.nodeLabel, x)))
    ensures (set x | x in items :: ValueNode(rule.nodeLabel, x))
         == {ValueNode(rule.nodeLabel, items[0])} + (set x | x in items[1..] :: ValueNode(rule.nodeLabel, x))
  {
    assert items == [items[0]] + items[1..];
  }

  lemma {:induction false} ItemOpsNodes(inc: NodeKey, rule: AttrRule, items: seq<string>)
    ensures NodesWritten(ItemOps(inc, rule, items)).Keys + {inc}
         == (set x | x in items :: ValueNode(rule.nodeLabel, x)) + {inc}
    decreases |items|
  {
    if items != [] {
      var v := ValueNode(rule.nodeLabel, items[0]);
      var op := EdgeMerge(EdgeKey(inc, rule.rel, v), map[]);
      ItemOpsNodes(inc, rule, items[1..]);
      WrittenKeysAppend([op], ItemOps(inc, rule, items[1..]));
      SingleNodeWrite(op);
      ItemSetsCons(inc, rule, items);
    }
  }

  lemma {:induction false} ItemOpsSetNothing(inc: NodeKey, rule: AttrRule, items: seq<string>, n: NodeKey)
    ensures SetsNothingOn(ItemOps(inc, rule, items), n)
    decreases |items|
  {
    if items != [] {
      var op := EdgeMerge(EdgeKey(inc, rule.rel, ValueNode(rule.nodeLabel, items[0])), map[]);
      ItemOpsSetNothing(inc, rule, items[1..], n);
      EdgeMergeSetsNothing(op.edge, n);
      SetsNothingOnAppend([op], ItemOps(inc, rule, items[1..]), n);
    }
  }

  lemma {:induction false} RuleOpsMergeOnly(inc: NodeKey, r: Record, rules: seq<AttrRule>)
    ensures MergeOnly(RuleOps(inc, r, rules))
    decreases |rules|
  {
    if rules != [] {
      ItemOpsMergeOnly(inc, rules[0], Items(r, rules[0].name));
      RuleOpsMergeOnly(inc, r, rules[1..]);
      MergeOnlyAppend(ItemOps(inc, rules[0], Items(r, rules[0].name)), RuleOps(inc, r, rules[1..]));
    }
  }

  lemma {:induction false} RuleOpsEdges(inc: NodeKey, r: Record, rules: seq<AttrRule>)
    ensures EdgesWritten(RuleOps(inc, r, rules)).Keys == RuleEdges(inc, r, rules)
    decreases |rules|
  {
    if rules != [] {
      var ru := rules[0];
      ItemOpsEdges(inc, ru, Items(r, ru.name));
      RuleOpsEdges(inc, r, rules[1..]);
      WrittenKeysAppend(ItemOps(inc, ru, Items(r, ru.name)), RuleOps(inc, r, rules[1..]));
      assert rules == [ru] + rules[1..];
      assert RuleEdges(inc, r, rules)
          == (set x | x in Items(r, ru.name) :: EdgeKey(inc, ru.rel, ValueNode(ru.nodeLabel, x))) + RuleEdges(inc, r, rules[1..]);
    }
  }

  lemma {:induction false} RuleOpsNodes(inc: NodeKey, r: Record, rules: seq<AttrRule>)
    ensures NodesWritten(RuleOps(inc, r, rules)).Keys + {inc} == RuleNodes(r, rules) + {inc}
    decreases |rules|
  {
    if rules != [] {
      var ru := rules[0];
      var a, b := ItemOps(inc, ru, Items(r, ru.name)), RuleOps(inc, r, rules[1..]);
      var sa := set x | x in Items(r, ru.name) :: ValueNode(ru.nodeLabel, x);
      ItemOpsNodes(inc, ru, Items(r, ru.name));
      RuleOpsNodes(inc, r, rules[1..]);
      WrittenKeysAppend(a, b);
      assert rules == [ru] + rules[1..];
      assert RuleNodes(r, rules) == sa + RuleNodes(r, rules[1..]);
      UnionWith(NodesWritten(a).Keys, NodesWritten(b).Keys, sa, RuleNodes(r, rules[1..]), inc);
    }
  }

  lemma UnionWith(a: set<NodeKey>, b: set<NodeKey>, sa: set<NodeKey>, sb: set<NodeKey>, inc: NodeKey)
    requires a + {inc} == sa + {inc} && b + {inc} == sb + {inc}
    ensures (a + b) + {inc} == (sa + sb) + {inc}
  {
  }

  lemma {:induction false} RuleOpsSetNothing(inc: NodeKey, r: Record, rules: seq<AttrRule>, n: NodeKey)
    ensures SetsNothingOn(RuleOps(inc, r, rules), n)
    decreases |rules|
  {
    if rules != [] {
      ItemOpsSetNothing(inc, rules[0], Items(r, rules[0].name), n);
      RuleOpsSetNothing(inc, r, rules[1..], n);
      SetsNothingOnAppend(ItemOps(inc, rules[0], Items(r, rules[0].name)), RuleOps(inc, r, rules[1..]), n);
    }
  }

  lemma ClausePieceWrites(inc: NodeKey, cfr: CfrDict, c: string)
    requires c in cfr
    ensures MergeOnly(ClausePieceOps(inc, cfr, c))
    ensures EdgesWritten(ClausePieceOps(inc, cfr, c)).Keys == {EdgeKey(inc, "REGULATED_BY", CfrNode(c))}
    ensures NodesWritten(ClausePieceOps(inc, cfr, c)).Keys + {inc} == {CfrNode(c), inc}
  {
    var a := ClausePieceOps(inc, cfr, c);
    assert a == [a[0]] + [a[1]];
    WrittenKeysAppend([a[0]], [a[1]]);
    SingleNodeWrite(a[0]);
    SingleNodeWrite(a[1]);
    SingleWrite(a[0]);
    SingleWrite(a[1]);
  }

  lemma {:induction false} ClauseOpsMergeOnly(inc: NodeKey, cfr: CfrDict, parts: seq<string>)
    ensures MergeOnly(ClauseOps(inc, cfr, parts))
    decreases |parts|
  {
    if parts != [] {
      ClauseOpsMergeOnly(inc, cfr, parts[1..]);
      if parts[0] in cfr {
        ClausePieceWrites(inc, cfr, parts[0]);
        MergeOnlyAppend(ClausePieceOps(inc, cfr, parts[0]), ClauseOps(inc, cfr, parts[1..]));
      }
    }
  }

  lemma ClauseSetsCons(inc: NodeKey, cfr: CfrDict, parts: seq<string>)
    requires parts != []
    ensures ClauseEdges(inc, cfr, parts)
         == (if parts[0] in cfr then {EdgeKey(inc, "REGULATED_BY", CfrNode(parts[0]))} else {}) + ClauseEdges(inc, cfr, parts[1..])
    ensures ClauseNodes(cfr, parts) == (if parts[0] in cfr then {CfrNode(parts[0])} else {}) + ClauseNodes(cfr, parts[1..])
  {
    assert parts == [parts[0]] + parts[1..];
  }

  lemma {:induction false} ClauseOpsEdges(inc: NodeKey, cfr: CfrDict, parts: seq<string>)
    ensures EdgesWritten(ClauseOps(inc, cfr, parts)).Keys == ClauseEdges(inc, cfr, parts)
    decreases |parts|
  {
    if parts != [] {
      var c := parts[0];
      var b := ClauseOps(inc, cfr, parts[1..]);
      ClauseOpsEdges(inc, cfr, parts[1..]);
      ClauseSetsCons(inc, cfr, parts);
      if c in cfr {
        ClausePieceWrites(inc, cfr, c);
        WrittenKeysAppend(ClausePieceOps(inc, cfr, c), b);
      } else {
        assert ClauseOps(inc, cfr, parts) == b;
      }
    }
  }

  lemma {:induction false} ClauseOpsNodes(inc: NodeKey, cfr: CfrDict, parts: seq<string>)
    ensures NodesWritten(ClauseOps(inc, cfr, parts)).Keys + {inc} == ClauseNodes(cfr, parts) + {inc}
    decreases |parts|
  {
    if parts != [] {
      var c := parts[0];
      var b := ClauseOps(inc, cfr, parts[1..]);
      ClauseOpsNodes(inc, cfr, parts[1..]);
      ClauseSetsCons(inc, cfr, parts);
      if c in cfr {
        var a := ClausePieceOps(inc, cfr, c);
        assert ClauseOps(inc, cfr, parts) == a + b;
        ClausePieceWrites(inc, cfr, c);
        NodeKeysAppend(a, b);
        UnionWith(NodesWritten(a).Keys, NodesWritten(b).Keys, {CfrNode(c)}, ClauseNodes(cfr, parts[1..]), inc);
      } else {
        assert ClauseOps(inc, cfr, parts) == b;
      }
    }
  }

  lemma {:induction false} ClauseOpsSetNothing(inc: NodeKey, cfr: CfrDict, parts: seq<string>, n: NodeKey)
    requires n !in ClauseNodes(cfr, parts)
    ensures SetsNothingOn(ClauseOps(inc, cfr, parts), n)
    decreases |parts|
  {
    if parts != [] {
      var c := parts[0];
      assert parts == [c] + parts[1..];
      assert n !in ClauseNodes(cfr, parts[1..]);
      ClauseOpsSetNothing(inc, cfr, parts[1..], n);
      if c in cfr {
        var a := ClausePieceOps(inc, cfr, c);
        assert n != CfrNode(c);
        EdgeMergeSetsNothing(a[1].edge, n);
        assert SetsNothingOn(a, n);
        SetsNothingOnAppend(a, ClauseOps(inc, cfr, parts[1..]), n);
      }
    }
  }

  // ----- one record -----

  lemma MergeOnlyEffective(s: GraphState, ops: seq<Op>)
    requires MergeOnly(ops)
    ensures Effective(s, ops)
  {
  }

  predicate Complete(m: Metadata)
  {
    HasFacility(m) && m.title.Some? && m.eventDate.Some?
  }

  /** Every write of a record that is ingested in full: the Incident, its attribute items, its
      facility and its clauses. */
  function RecordOps(sc: Script, cfr: CfrDict, r: Record): seq<Op>
    requires Complete(r.metadata)
  {
    var m, inc := r.metadata, IncidentNode(r.filename);
    [NodeMerge(inc, IncidentProps(m.title.value, m.eventDate.value))]
    + (RuleOps(inc, r, sc.rules)
       + ([FacilityOp(inc, m.facility.value.name.value, m.facility.value.unit.value)]
          + ClauseOps(inc, cfr, ClauseParts(m))))
  }

  lemma IngestOpsSplit(sc: Script, cfr: CfrDict, r: Record)
    requires !IngestRecord(sc, cfr, r).failed
    ensures Complete(r.metadata)
    ensures IngestRecord(sc, cfr, r).ops == RecordOps(sc, cfr, r)
  {
  }

  lemma NodePiecesKeys(op0: Op, R: seq<Op>, fop: Op, C: seq<Op>)
    ensures NodesWritten([op0] + (R + ([fop] + C))).Keys
         == NodeDelta(op0).Keys + NodesWritten(R).Keys + NodeDelta(fop).Keys + NodesWritten(C).Keys
  {
    var t := [fop] + C;
    var u := R + t;
    NodeKeysAppend([fop], C);
    NodeKeysAppend(R, t);
    NodeKeysAppend([op0], u);
    SingleNodeWrite(op0);
    SingleNodeWrite(fop);
  }

  lemma EdgePiecesKeys(op0: Op, R: seq<Op>, fop: Op, C: seq<Op>)
    ensures EdgesWritten([op0] + (R + ([fop] + C))).Keys
         == EdgeDelta(op0).Keys + EdgesWritten(R).Keys + EdgeDelta(fop).Keys + EdgesWritten(C).Keys
  {
    var t := [fop] + C;
    var u := R + t;
    EdgeKeysAppend([fop], C);
    EdgeKeysAppend(R, t);
    EdgeKeysAppend([op0], u);
    SingleWrite(op0);
    SingleWrite(fop);
  }

  lemma RecordNodeKeys(sc: Script, cfr: CfrDict, r: Record)
    requires Complete(r.metadata)
    ensures NodesWritten(RecordOps(sc, cfr, r)).Keys == RecordNodes(sc, cfr, r)
  {
    var m, inc := r.metadata, IncidentNode(r.filename);
    var f := m.facility.value;
    var op0 := NodeMerge(inc, IncidentProps(m.title.value, m.eventDate.value));
    var fop := FacilityOp(inc, f.name.value, f.unit.value);
    var R, C := RuleOps(inc, r, sc.rules), ClauseOps(inc, cfr, ClauseParts(m));
    assert RecordOps(sc, cfr, r) == [op0] + (R + ([fop] + C));
    NodePiecesKeys(op0, R, fop, C);
    RuleOpsNodes(inc, r, sc.rules);
    ClauseOpsNodes(inc, cfr, ClauseParts(m));
    var fac := FacilityNode(f.name.value, f.unit.value);
    MergeKeys(op0);
    FacilityKeys(inc, f.name.value, f.unit.value);
    KeysAround(NodesWritten(R).Keys, NodesWritten(C).Keys, RuleNodes(r, sc.rules), ClauseNodes(cfr, ClauseParts(m)), inc, fac);
  }

  lemma MergeKeys(op: Op)
    requires op.NodeMerge?
    ensures NodeDelta(op).Keys == {op.node}
  {
  }

  lemma FacilityKeys(inc: NodeKey, name: string, unit: string)
    ensures NodeDelta(FacilityOp(inc, name, unit)).Keys == {inc, FacilityNode(name, unit)}
  {
  }

  lemma KeysAround<T>(a: set<T>, b: set<T>, sa: set<T>, sb: set<T>, inc: T, fac: T)
    requires a + {inc} == sa + {inc} && b + {inc} == sb + {inc}
    ensures {inc} + a + {inc, fac} + b == {inc} + sa + {fac} + sb
  {
  }

  lemma RecordEdgeKeys(sc: Script, cfr: CfrDict, r: Record)
    requires Complete(r.metadata)
    ensures EdgesWritten(RecordOps(sc, cfr, r)).Keys == RecordEdges(sc, cfr, r)
  {
    var m, inc := r.metadata, IncidentNode(r.filename);
    var f := m.facility.value;
    var op0 := NodeMerge(inc, IncidentProps(m.title.value, m.eventDate.value));
    var fop := FacilityOp(inc, f.name.value, f.unit.value);
    var R, C := RuleOps(inc, r, sc.rules), ClauseOps(inc, cfr, ClauseParts(m));
    assert RecordOps(sc, cfr, r) == [op0] + (R + ([fop] + C));
    EdgePiecesKeys(op0, R, fop, C);
    RuleOpsEdges(inc, r, sc.rules);
    ClauseOpsEdges(inc, cfr, ClauseParts(m));
  }

  /** A record written in full SETs the record's title and date on its Incident node and no
      property on any node but that one and its CFR nodes. */
  lemma RecordProps(sc: Script, cfr: CfrDict, r: Record, n: NodeKey)
    requires Complete(r.metadata)
    ensures n == IncidentNode(r.filename)
        ==> PropsOf(NodesWritten(RecordOps(sc, cfr, r)), n)
            == IncidentProps(r.metadata.title.value, r.metadata.eventDate.value)
    ensures n != IncidentNode(r.filename) && n !in ClauseNodes(cfr, ClauseParts(r.metadata))
        ==> PropsOf(NodesWritten(RecordOps(sc, cfr, r)), n) == map[]
  {
    var m, inc := r.metadata, IncidentNode(r.filename);
    var f := m.facility.value;
    var op0 := NodeMerge(inc, IncidentProps(m.title.value, m.eventDate.value));
    var fop := FacilityOp(inc, f.name.value, f.unit.value);
    var R, C := RuleOps(inc, r, sc.rules), ClauseOps(inc, cfr, ClauseParts(m));
    var ops := RecordOps(sc, cfr, r);
    if n == inc || n !in ClauseNodes(cfr, ClauseParts(m)) {
      assert n !in ClauseNodes(cfr, ClauseParts(m));
      RuleOpsSetNothing(inc, r, sc.rules, n);
      EdgeMergeSetsNothing(fop.edge, n);
      ClauseOpsSetNothing(inc, cfr, ClauseParts(m), n);
      SetsNothingOnAppend([fop], C, n);
      SetsNothingOnAppend(R, [fop] + C, n);
      assert ops[1..] == R + ([fop] + C);
      NodeUntouched(ops[1..], n);
      OverlayAt(NodeDelta(op0), NodesWritten(ops[1..]), n);
      assert PropsOf(NodeDelta(op0), n) + map[] == PropsOf(NodeDelta(op0), n);
    }
  }

  lemma RecordMergeOnly(sc: Script, cfr: CfrDict, r: Record)
    requires Complete(r.metadata)
    ensures MergeOnly(RecordOps(sc, cfr, r))
  {
    var m, inc := r.metadata, IncidentNode(r.filename);
    var f := m.facility.value;
    var R, C := RuleOps(inc, r, sc.rules), ClauseOps(inc, cfr, ClauseParts(m));
    var fop := FacilityOp(inc, f.name.value, f.unit.value);
    RuleOpsMergeOnly(inc, r, sc.rules);
    ClauseOpsMergeOnly(inc, cfr, ClauseParts(m));
    MergeOnlyAppend([fop], C);
    MergeOnlyAppend(R, [fop] + C);
    MergeOnlyAppend([NodeMerge(inc, IncidentProps(m.title.value, m.eventDate.value))], R + ([fop] + C));
  }

  /** A record's transaction runs MERGEs only, whether or not it raises. */
  lemma IngestMergeOnly(sc: Script, cfr: CfrDict, r: Record)
    ensures MergeOnly(IngestRecord(sc, cfr, r).ops)
  {
    var m, inc := r.metadata, IncidentNode(r.filename);
    if m.title.Some? && m.eventDate.Some? {
      var first := [NodeMerge(inc, IncidentProps(m.title.value, m.eventDate.value))];
      var rules := RuleOps(inc, r, sc.rules);
      RuleOpsMergeOnly(inc, r, sc.rules);
      MergeOnlyAppend(first, rules);
      if HasFacility(m) {
        var fac := [FacilityOp(inc, m.facility.value.name.value, m.facility.value.unit.value)];
        MergeOnlyAppend(first + rules, fac);
        ClauseOpsMergeOnly(inc, cfr, ClauseParts(m));
        MergeOnlyAppend(first + rules + fac, ClauseOps(inc, cfr, ClauseParts(m)));
      }
    }
  }

  /** Ingesting the same record a second time changes nothing. */
  lemma IngestIdempotent(sc: Script, cfr: CfrDict, s: GraphState, r: Record)
    ensures IngestState(sc, cfr, IngestState(sc, cfr, s, r), r) == IngestState(sc, cfr, s, r)
  {
    var o := IngestRecord(sc, cfr, r);
    if !o.failed {
      IngestMergeOnly(sc, cfr, r);
      MergeScriptIdempotent(s, o.ops);
    }
  }

  /** `session.write_transaction` raises exactly when the record lacks the title or event date,
      the Task list where the script indexes it, the facility or one of its two fields, or the
      clause where the script indexes it; the rollback then leaves the database as it was. */
  lemma IngestFailure(sc: Script, cfr: CfrDict, s: GraphState, r: Record)
    ensures IngestRecord(sc, cfr, r).failed
        <==> !Complete(r.metadata)
             || (sc.taskRequired && "Task" !in r.attributes)
             || (sc.clauseRequired && r.metadata.clause.None?)
    ensures IngestRecord(sc, cfr, r).failed ==> IngestState(sc, cfr, s, r) == s
  {
  }

  /** What a successfully ingested record leaves in the database: exactly the nodes of
      `RecordNodes` and the relationships of `RecordEdges` are added, the Incident node gets
      the record's title and date written over its old properties, every other node keeps its
      properties unless it is one of the record's CFR nodes, and `create` is never used. */
  lemma IngestEffect(sc: Script, cfr: CfrDict, s: GraphState, r: Record)
    requires !IngestRecord(sc, cfr, r).failed
    ensures Complete(r.metadata)
    ensures IngestState(sc, cfr, s, r).nodes.Keys == s.nodes.Keys + RecordNodes(sc, cfr, r)
    ensures IngestState(sc, cfr, s, r).edges.Keys == s.edges.Keys + RecordEdges(sc, cfr, r)
    ensures IngestState(sc, cfr, s, r).created == s.created
    ensures IngestState(sc, cfr, s, r).nodes[IncidentNode(r.filename)]
         == PropsOf(s.nodes, IncidentNode(r.filename)) + IncidentProps(r.metadata.title.value, r.metadata.eventDate.value)
    ensures forall n | n in s.nodes && n != IncidentNode(r.filename) && n !in ClauseNodes(cfr, ClauseParts(r.metadata))
              :: IngestState(sc, cfr, s, r).nodes[n] == s.nodes[n]
  {
    IngestCommits(sc, cfr, s, r);
    RecordKeysEffect(sc, cfr, s, r);
    RecordScript(sc, cfr, s, r);
    RecordPropsEffect(sc, cfr, s.nodes, r);
  }

  lemma RecordPropsEffect(sc: Script, cfr: CfrDict, m: map<NodeKey, Props>, r: Record)
    requires Complete(r.metadata)
    ensures PropsOf(Overlay(m, NodesWritten(RecordOps(sc, cfr, r))), IncidentNode(r.filename))
         == PropsOf(m, IncidentNode(r.filename)) + IncidentProps(r.metadata.title.value, r.metadata.eventDate.value)
    ensures forall n | n in m && n != IncidentNode(r.filename) && n !in ClauseNodes(cfr, ClauseParts(r.metadata))
              :: PropsOf(Overlay(m, NodesWritten(RecordOps(sc, cfr, r))), n) == m[n]
  {
    var w := NodesWritten(RecordOps(sc, cfr, r));
    var inc := IncidentNode(r.filename);
    RecordProps(sc, cfr, r, inc);
    OverlayAt(m, w, inc);
    RecordFrame(sc, cfr, r);
    OverlayFrame(m, w, {inc} + ClauseNodes(cfr, ClauseParts(r.metadata)));
  }

  /** A record that raises nothing commits exactly its full list of writes. */
  lemma IngestCommits(sc: Script, cfr: CfrDict, s: GraphState, r: Record)
    requires !IngestRecord(sc, cfr, r).failed
    ensures Complete(r.metadata)
    ensures IngestState(sc, cfr, s, r) == ApplyAll(s, RecordOps(sc, cfr, r))
  {
    IngestOpsSplit(sc, cfr, r);
  }

  /** A record's writes run from `s` as one MERGE script. */
  lemma RecordScript(sc: Script, cfr: CfrDict, s: GraphState, r: Record)
    requires Complete(r.metadata)
    ensures ApplyAll(s, RecordOps(sc, cfr, r))
         == s.(nodes := Overlay(s.nodes, NodesWritten(RecordOps(sc, cfr, r))),
               edges := Overlay(s.edges, EdgesWritten(RecordOps(sc, cfr, r))))
  {
    var ops := RecordOps(sc, cfr, r);
    RecordMergeOnly(sc, cfr, r);
    MergeOnlyEffective(s, ops);
    ScriptEffect(s, ops);
  }

  lemma RecordKeysEffect(sc: Script, cfr: CfrDict, s: GraphState, r: Record)
    requires Complete(r.metadata)
    ensures ApplyAll(s, RecordOps(sc, cfr, r)).nodes.Keys == s.nodes.Keys + RecordNodes(sc, cfr, r)
    ensures ApplyAll(s, RecordOps(sc, cfr, r)).edges.Keys == s.edges.Keys + RecordEdges(sc, cfr, r)
    ensures ApplyAll(s, RecordOps(sc, cfr, r)).created == s.created
  {
    RecordScript(sc, cfr, s, r);
    RecordNodeKeys(sc, cfr, r);
    RecordEdgeKeys(sc, cfr, r);
  }

  /** Nodes outside `keep` get nothing written. */
  lemma OverlayFrame(m: map<NodeKey, Props>, w: map<NodeKey, Props>, keep: set<NodeKey>)
    requires forall n | n !in keep :: PropsOf(w, n) == map[]
    ensures forall n | n in m && n !in keep :: PropsOf(Overlay(m, w), n) == m[n]
  {
    forall n | n in m && n !in keep ensures PropsOf(Overlay(m, w), n) == m[n] {
      OverlayAt(m, w, n);
      assert m[n] + map[] == m[n];
    }
  }

  lemma RecordFrame(sc: Script, cfr: CfrDict, r: Record)
    requires Complete(r.metadata)
    ensures forall n | n !in {IncidentNode(r.filename)} + ClauseNodes(cfr, ClauseParts(r.metadata))
              :: PropsOf(NodesWritten(RecordOps(sc, cfr, r)), n) == map[]
  {
    forall n | n !in {IncidentNode(r.filename)} + ClauseNodes(cfr, ClauseParts(r.metadata))
      ensures PropsOf(NodesWritten(RecordOps(sc, cfr, r)), n) == map[]
    {
      RecordProps(sc, cfr, r, n);
    }
  }

  // ----- Step 3: one transaction per record -----

  /** Every record before position `k` is ingested without error. */
  predicate AllIngested(sc: Script, cfr: CfrDict, data: seq<Record>)
  {
    forall k | 0 <= k < |data| :: !IngestRecord(sc, cfr, data[k]).failed
  }

  /** Step 3: the database after one write transaction per record, in order, and whether every
      record went in. The first transaction that raises ends the script, since nothing catches
      its exception. */
  function IngestAll(sc: Script, cfr: CfrDict, s: GraphState, data: seq<Record>): (GraphState, bool)
    decreases |data|
  {
    if data == [] then (s, true)
    else
      var (t, ok) := IngestAll(sc, cfr, s, data[..|data| - 1]);
      if !ok then (t, false)
      else (IngestState(sc, cfr, t, data[|data| - 1]), !IngestRecord(sc, cfr, data[|data| - 1]).failed)
  }

  /** The writes that Step 3 commits: those of every record up to the first one that raises. */
  function Committed(sc: Script, cfr: CfrDict, data: seq<Record>): seq<Op>
    decreases |data|
  {
    if data == [] then []
    else
      var p := Committed(sc, cfr, data[..|data| - 1]);
      var o := IngestRecord(sc, cfr, data[|data| - 1]);
      if !AllIngested(sc, cfr, data[..|data| - 1]) || o.failed then p else p + o.ops
  }

  lemma AllIngestedPrefix(sc: Script, cfr: CfrDict, data: seq<Record>)
    requires data != []
    ensures AllIngested(sc, cfr, data)
        <==> AllIngested(sc, cfr, data[..|data| - 1]) && !IngestRecord(sc, cfr, data[|data| - 1]).failed
  {
    var p := data[..|data| - 1];
    if AllIngested(sc, cfr, p) && !IngestRecord(sc, cfr, data[|data| - 1]).failed {
      forall k | 0 <= k < |data| ensures !IngestRecord(sc, cfr, data[k]).failed {
        if k < |p| {
          assert data[k] == p[k];
        }
      }
    }
    if AllIngested(sc, cfr, data) {
      forall k | 0 <= k < |p| ensures !IngestRecord(sc, cfr, p[k]).failed {
        assert p[k] == data[k];
      }
    }
  }

  /** Step 3 is one MERGE script, the committed writes, run from the state it starts in; it
      reports success exactly when every record goes in. */
  lemma {:induction false} IngestAllScript(sc: Script, cfr: CfrDict, s: GraphState, data: seq<Record>)
    ensures IngestAll(sc, cfr, s, data) == (ApplyAll(s, Committed(sc, cfr, data)), AllIngested(sc, cfr, data))
    ensures MergeOnly(Committed(sc, cfr, data))
    decreases |data|
  {
    if data != [] {
      var p := data[..|data| - 1];
      var r := data[|data| - 1];
      IngestAllScript(sc, cfr, s, p);
      AllIngestedPrefix(sc, cfr, data);
      var o := IngestRecord(sc, cfr, r);
      if AllIngested(sc, cfr, p) && !o.failed {
        ApplyAllAppend(s, Committed(sc, cfr, p), o.ops);
        IngestMergeOnly(sc, cfr, r);
        MergeOnlyAppend(Committed(sc, cfr, p), o.ops);
      }
    }
  }

  /** Running the whole of Step 3 a second time over the same records changes nothing. */
  lemma IngestAllIdempotent(sc: Script, cfr: CfrDict, s: GraphState, data: seq<Record>)
    ensures IngestAll(sc, cfr, IngestAll(sc, cfr, s, data).0, data) == IngestAll(sc, cfr, s, data)
  {
    var t := IngestAll(sc, cfr, s, data).0;
    IngestAllScript(sc, cfr, s, data);
    IngestAllScript(sc, cfr, t, data);
    MergeScriptIdempotent(s, Committed(sc, cfr, data));
  }

  lemma {:induction false} IngestAllStopped(sc: Script, cfr: CfrDict, s: GraphState, data: seq<Record>, i: nat)
    requires i <= |data|
    requires !IngestAll(sc, cfr, s, data[..i]).1
    ensures IngestAll(sc, cfr, s, data) == IngestAll(sc, cfr, s, data[..i])
    decreases |data| - i
  {
    if i < |data| {
      assert data[..i + 1][..i] == data[..i];
      IngestAllStopped(sc, cfr, s, data, i + 1);
    } else {
      assert data[..i] == data;
    }
  }

  /** Step 3 (`for event in data: session.write_transaction(insert_nodes_and_relationships,
      event)`): returns whether every record went in. */
  method IngestRecords(g: GraphStore, sc: Script, cfr: CfrDict, data: seq<Record>) returns (ok: bool)
    modifies g
    ensures (g.State(), ok) == IngestAll(sc, cfr, old(g.State()), data)
  {
    ok := true;
    var i := 0;
    while i < |data| && ok
      invariant 0 <= i <= |data|
      invariant (g.State(), ok) == IngestAll(sc, cfr, old(g.State()), data[..i])
    {
      assert data[..i + 1][..i] == data[..i];
      var o := IngestRecord(sc, cfr, data[i]);
      g.Transact(o.ops, o.failed);
      ok := !o.failed;
      i := i + 1;
    }
    if !ok {
      IngestAllStopped(sc, cfr, old(g.State()), data, i);
    } else {
      assert data[..i] == data;
    }
  }

  /** After Step 3 has ingested every record, each record's nodes are in the database, and
      nothing that was there has gone. */
  lemma IngestGrows(sc: Script, cfr: CfrDict, s: GraphState, r: Record)
    requires !IngestRecord(sc, cfr, r).failed
    ensures Complete(r.metadata)
    ensures IngestState(sc, cfr, s, r).nodes.Keys == s.nodes.Keys + RecordNodes(sc, cfr, r)
  {
    IngestCommits(sc, cfr, s, r);
    RecordKeysEffect(sc, cfr, s, r);
  }

  lemma IngestAllLast(sc: Script, cfr: CfrDict, s: GraphState, data: seq<Record>)
    requires data != []
    requires IngestAll(sc, cfr, s, data).1
    ensures IngestAll(sc, cfr, s, data[..|data| - 1]).1
    ensures !IngestRecord(sc, cfr, data[|data| - 1]).failed
    ensures IngestAll(sc, cfr, s, data).0
         == IngestState(sc, cfr, IngestAll(sc, cfr, s, data[..|data| - 1]).0, data[|data| - 1])
  {
  }

  /** The nodes the records write when they are ingested in full. */
  function IngestedNodes(sc: Script, cfr: CfrDict, data: seq<Record>): set<NodeKey>
    decreases |data|
  {
    if data == [] then {}
    else
      var r := data[|data| - 1];
      IngestedNodes(sc, cfr, data[..|data| - 1]) + (if Complete(r.metadata) then RecordNodes(sc, cfr, r) else {})
  }

  lemma {:induction false} IngestedNodesHas(sc: Script, cfr: CfrDict, data: seq<Record>, k: nat)
    requires k < |data| && Complete(data[k].metadata)
    ensures RecordNodes(sc, cfr, data[k]) <= IngestedNodes(sc, cfr, data)
    decreases |data|
  {
    if k < |data| - 1 {
      var p := data[..|data| - 1];
      assert data[k] == p[k];
      IngestedNodesHas(sc, cfr, p, k);
    }
  }

  lemma {:induction false} IngestAllNodes(sc: Script, cfr: CfrDict, s: GraphState, data: seq<Record>)
    requires IngestAll(sc, cfr, s, data).1
    ensures IngestAll(sc, cfr, s, data).0.nodes.Keys == s.nodes.Keys + IngestedNodes(sc, cfr, data)
    decreases |data|
  {
    if data != [] {
      var p := data[..|data| - 1];
      var r := data[|data| - 1];
      var t := IngestAll(sc, cfr, s, p).0;
      IngestAllLast(sc, cfr, s, data);
      IngestAllNodes(sc, cfr, s, p);
      IngestGrows(sc, cfr, t, r);
    }
  }
}
