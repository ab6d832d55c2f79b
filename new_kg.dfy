/** `human_error/2_new_kg.py`: the human-error graph, written with py2neo.

    For each record the Incident node is merged on its file name with its title, event date,
    facility and unit; then five nested loops walk Task, Cause, Event, Influence and
    Corrective Actions. At each level every value is merged as a node keyed by its description
    (so equal strings share one node across incidents), a chain relationship is `create`d from
    the value of the enclosing loop (none at the Task level) and a `HAS_...` relationship is
    `create`d from the incident. A `create` adds a new relationship on every call, so a
    relationship is made once for every combination of the enclosing loops' values.

    The nesting is modelled as one level per entry of `Levels`, the loop of a level running
    the levels after it once per value. */
module HumanErrorGraph {
  import opened Text
  import opened Records
  import opened PropertyGraph
  import opened IncidentIngest

  /** One loop of the nest: the attribute it walks, the label of its nodes, the relationship
      from the enclosing loop's node and the relationship from the incident. */
  datatype Level = Level(attr: string, nodeLabel: string, chainRel: string, incRel: string)

  const Levels: seq<Level> := [
    Level("Task", "Task", "", "HAS_TASK"),
    Level("Cause", "Cause", "LEADS_TO", "HAS_CAUSE"),
    Level("Event", "Event", "TRIGGERS", "HAS_EVENT"),
    Level("Influence", "Influence", "IMPACTS", "HAS_INFLUENCE"),
    Level("Corrective Actions", "CorrectiveAction", "ADDRESSED_BY", "HAS_CORRECTIVE_ACTION")]

  /** `Node(label, description=x)` */
  function Description(x: string): Props
  {
    map["description" := Str(x)]
  }

  /** The properties of the Incident node. */
  function IncidentFields(filename: string, m: Metadata): Props
    requires Complete(m)
  {
    map["filename" := Str(filename), "title" := Str(m.title.value), "event_date" := Str(m.eventDate.value),
        "facility" := Str(m.facility.value.name.value), "unit" := Str(m.facility.value.unit.value)]
  }

  /** The writes for one value `x` of a level: merge its node, create the relationship from the
      enclosing loop's node (if any) and the one from the incident. */
  function ItemWrites(inc: NodeKey, parent: Option<NodeKey>, lv: Level, x: string): seq<Op>
  {
    var n := ValueNode(lv.nodeLabel, x);
    [NodeMerge(n, Description(x))]
    + (if parent.Some? then [EdgeCreate(EdgeKey(parent.value, lv.chainRel, n))] else [])
    + [EdgeCreate(EdgeKey(inc, lv.incRel, n))]
  }

  /** The writes of the loop of `levels[0]` and of everything nested in it. */
  function NestOps(inc: NodeKey, parent: Option<NodeKey>, r: Record, levels: seq<Level>): seq<Op>
    decreases |levels|, 1, 0
  {
    if levels == [] then [] else LoopOps(inc, parent, r, levels, Items(r, levels[0].attr))
  }

  /** The writes of the loop of `levels[0]` over the values `xs`. */
  function LoopOps(inc: NodeKey, parent: Option<NodeKey>, r: Record, levels: seq<Level>, xs: seq<string>): seq<Op>
    requires levels != []
    decreases |levels|, 0, |xs|
  {
    if xs == [] then [] else LoopOps(inc, parent, r, levels, xs[..|xs| - 1]) + Body(inc, parent, r, levels, xs[|xs| - 1])
  }

  /** The writes of one pass of the loop of `levels[0]`, for the value `x`. */
  function Body(inc: NodeKey, parent: Option<NodeKey>, r: Record, levels: seq<Level>, x: string): seq<Op>
    requires levels != []
    decreases |levels|, 0, 0
  {
    ItemWrites(inc, parent, levels[0], x) + NestOps(inc, Some(ValueNode(levels[0].nodeLabel, x)), r, levels[1..])
  }

  /** The writes of one record whose metadata is complete. */
  function RecordWrites(r: Record): seq<Op>
    requires Complete(r.metadata)
  {
    var inc := IncidentNode(r.filename);
    [NodeMerge(inc, IncidentFields(r.filename, r.metadata))] + NestOps(inc, None, r, Levels)
  }

  /** The database after the record loop, and whether it got through every record: the first
      record whose title, event date, facility, facility name or unit is missing raises
      `KeyError` before anything of it is written, and nothing catches it. */
  function BuildAll(s: GraphState, data: seq<Record>): (GraphState, bool)
    decreases |data|
  {
    if data == [] then (s, true)
    else
      var (t, ok) := BuildAll(s, data[..|data| - 1]);
      var r := data[|data| - 1];
      if !ok || !Complete(r.metadata) then (t, false) else (ApplyAll(t, RecordWrites(r)), true)
  }

  // ----- the loops -----

  /** The loop of `levels[0]` and the loops nested in it. */
  method InsertNested(g: GraphStore, inc: NodeKey, parent: Option<NodeKey>, r: Record, levels: seq<Level>)
    modifies g
    ensures g.State() == ApplyAll(old(g.State()), NestOps(inc, parent, r, levels))
    decreases |levels|, 1
  {
    if levels != [] {
      var xs := Items(r, levels[0].attr);
      for k := 0 to |xs|
        invariant g.State() == ApplyAll(old(g.State()), LoopOps(inc, parent, r, levels, xs[..k]))
      {
        InsertItem(g, inc, parent, r, levels, xs[k]);
        LoopSnoc(inc, parent, r, levels, xs, k);
        ApplyAllAppend(old(g.State()), LoopOps(inc, parent, r, levels, xs[..k]), Body(inc, parent, r, levels, xs[k]));
      }
      assert xs[..|xs|] == xs;
    }
  }

  /** One pass of the loop of `levels[0]`: the writes for `x`, then the loops nested in it. */
  method InsertItem(g: GraphStore, inc: NodeKey, parent: Option<NodeKey>, r: Record, levels: seq<Level>, x: string)
    requires levels != []
    modifies g
    ensures g.State() == ApplyAll(old(g.State()), Body(inc, parent, r, levels, x))
    decreases |levels|, 0
  {
    var n := ValueNode(levels[0].nodeLabel, x);
    g.RunAll(ItemWrites(inc, parent, levels[0], x));
    InsertNested(g, inc, Some(n), r, levels[1..]);
    ApplyAllAppend(old(g.State()), ItemWrites(inc, parent, levels[0], x), NestOps(inc, Some(n), r, levels[1..]));
  }

  lemma LoopSnoc(inc: NodeKey, parent: Option<NodeKey>, r: Record, levels: seq<Level>, xs: seq<string>, k: nat)
    requires levels != [] && k < |xs|
    ensures LoopOps(inc, parent, r, levels, xs[..k + 1]) == LoopOps(inc, parent, r, levels, xs[..k]) + Body(inc, parent, r, levels, xs[k])
  {
    assert xs[..k + 1][..k] == xs[..k];
  }

  /** The body of the record loop, once the metadata lookups have succeeded. */
  method InsertRecord(g: GraphStore, r: Record)
    requires Complete(r.metadata)
    modifies g
    ensures g.State() == ApplyAll(old(g.State()), RecordWrites(r))
  {
    var inc := IncidentNode(r.filename);
    var op := NodeMerge(inc, IncidentFields(r.filename, r.metadata));
    g.MergeNode(inc, IncidentFields(r.filename, r.metadata));
    assert g.State() == ApplyAll(old(g.State()), [op]);
    InsertNested(g, inc, None, r, Levels);
    ApplyAllAppend(old(g.State()), [op], NestOps(inc, None, r, Levels));
  }

  lemma {:induction false} BuildAllStopped(s: GraphState, data: seq<Record>, i: nat)
    requires i <= |data|
    requires !BuildAll(s, data[..i]).1
    ensures BuildAll(s, data) == BuildAll(s, data[..i])
    decreases |data| - i
  {
    if i < |data| {
      assert data[..i + 1][..i] == data[..i];
      BuildAllStopped(s, data, i + 1);
    } else {
      assert data[..i] == data;
    }
  }

  /** The record loop of the script. */
  method BuildHumanErrorGraph(g: GraphStore, data: seq<Record>) returns (ok: bool)
    modifies g
    ensures (g.State(), ok) == BuildAll(old(g.State()), data)
  {
    for k := 0 to |data|
      invariant (g.State(), true) == BuildAll(old(g.State()), data[..k])
    {
      var r := data[k];
      assert data[..k + 1][..k] == data[..k];
      if !Complete(r.metadata) {
        BuildAllStopped(old(g.State()), data, k + 1);
        return false;
      }
      InsertRecord(g, r);
    }
    assert data[..|data|] == data;
    ok := true;
  }

  // ----- what the nest writes -----

  /** The labels of the levels are pairwise distinct, none is the incident's, and the node of
      the enclosing loop is not the incident. */
  predicate Labelled(levels: seq<Level>, inc: NodeKey, parent: Option<NodeKey>)
  {
    Distinct(levels, inc) && (parent.None? || parent.value != inc)
  }

  /** The labels of `levels` are pairwise distinct and none is the label of `inc`. */
  predicate Distinct(levels: seq<Level>, inc: NodeKey)
    decreases |levels|
  {
    levels == [] || (levels[0].nodeLabel != inc.nodeLabel && levels[0].nodeLabel !in Labels(levels[1..]) && Distinct(levels[1..], inc))
  }
  function Labels(levels: seq<Level>): set<string>
  {
    set i | 0 <= i < |levels| :: levels[i].nodeLabel
  }

  /** A node MERGE, of a node whose label is in `labels` and SETting its description, or a
      `create` of a relationship into a node whose label is in `labels`. */
  predicate Within(op: Op, labels: set<string>)
  {
    || (op.NodeMerge? && op.node.nodeLabel in labels && |op.node.key| == 1 && op.sets == Description(op.node.key[0]))
    || (op.EdgeCreate? && op.edge.dst.nodeLabel in labels)
  }

  lemma LabelsTail(levels: seq<Level>)
    requires levels != []
    ensures Labels(levels) == {levels[0].nodeLabel} + Labels(levels[1..])
  {
    forall l | l in Labels(levels) ensures l in {levels[0].nodeLabel} + Labels(levels[1..]) {
      var i :| 0 <= i < |levels| && levels[i].nodeLabel == l;
      if i > 0 {
        assert levels[1..][i - 1] == levels[i];
      }
    }
    forall l | l in Labels(levels[1..]) ensures l in Labels(levels) {
      var i :| 0 <= i < |levels[1..]| && levels[1..][i].nodeLabel == l;
      assert levels[i + 1] == levels[1..][i];
    }
  }

  /** The nest only merges nodes of its levels' labels, each SETting its description, and only
      creates relationships into nodes of those labels. */
  lemma {:induction false} NestShape(inc: NodeKey, parent: Option<NodeKey>, r: Record, levels: seq<Level>)
    ensures forall op | op in NestOps(inc, parent, r, levels) :: Within(op, Labels(levels))
    decreases |levels|, 2, 0
  {
    if levels != [] {
      LoopShape(inc, parent, r, levels, Items(r, levels[0].attr));
    }
  }

  lemma {:induction false} LoopShape(inc: NodeKey, parent: Option<NodeKey>, r: Record, levels: seq<Level>, xs: seq<string>)
    requires levels != []
    ensures forall op | op in LoopOps(inc, parent, r, levels, xs) :: Within(op, Labels(levels))
    decreases |levels|, 1, |xs|
  {
    if xs != [] {
      LoopShape(inc, parent, r, levels, xs[..|xs| - 1]);
      BodyShape(inc, parent, r, levels, xs[|xs| - 1]);
    }
  }

  lemma {:induction false} BodyShape(inc: NodeKey, parent: Option<NodeKey>, r: Record, levels: seq<Level>, z: string)
    requires levels != []
    ensures forall op | op in Body(inc, parent, r, levels, z) :: Within(op, Labels(levels))
    decreases |levels|, 0, 0
  {
    NestShape(inc, Some(ValueNode(levels[0].nodeLabel, z)), r, levels[1..]);
    LabelsTail(levels);
    assert levels[0].nodeLabel in Labels(levels);
  }

  // ----- counting what the nest writes -----

  /** What a write leaves behind that can be counted: a node MERGEd or a relationship created. */
  datatype Write = Merged(node: NodeKey) | Created(edge: EdgeKey)

  function WriteOf(op: Op): multiset<Write>
  {
    match op
    case NodeMerge(n, _) => multiset{Merged(n)}
    case EdgeCreate(e) => multiset{Created(e)}
    case _ => multiset{}
  }

  /** The node MERGEs and relationship creations of `ops`, counted. */
  function Writes(ops: seq<Op>): multiset<Write>
    decreases |ops|
  {
    if ops == [] then multiset{} else WriteOf(ops[0]) + Writes(ops[1..])
  }

  lemma {:induction false} WritesAppend(a: seq<Op>, b: seq<Op>)
    ensures Writes(a + b) == Writes(a) + Writes(b)
    decreases |a|
  {
    if a != [] {
      assert (a + b)[0] == a[0];
      assert (a + b)[1..] == a[1..] + b;
      WritesAppend(a[1..], b);
    } else {
      assert a + b == b;
    }
  }

  /** A write that no op of `ops` produces is not counted. */
  lemma {:induction false} WritesOnly(ops: seq<Op>, w: Write)
    requires forall op | op in ops :: w !in WriteOf(op)
    ensures Writes(ops)[w] == 0
    decreases |ops|
  {
    if ops != [] {
      assert ops[0] in ops;
      forall op | op in ops[1..] ensures w !in WriteOf(op) {
        assert op in ops;
      }
      WritesOnly(ops[1..], w);
    }
  }

  /** Each `create` of a relationship adds one copy of it to the database. */
  lemma {:induction false} ApplyAllCreated(s: GraphState, ops: seq<Op>, e: EdgeKey)
    ensures ApplyAll(s, ops).created[e] == s.created[e] + Writes(ops)[Created(e)]
    decreases |ops|
  {
    if ops != [] {
      ApplyAllCreated(Apply(s, ops[0]), ops[1..], e);
    }
  }

  function Count(xs: seq<string>, x: string): nat
  {
    multiset(xs)[x]
  }

  /** The number of times the body of the innermost of `levels` runs for each of its values:
      the product of the lengths of the lists of the enclosing loops. */
  function Fanout(r: Record, levels: seq<Level>): nat
  {
    if levels == [] then 1 else Mul(|Items(r, levels[0].attr)|, Fanout(r, levels[1..]))
  }

  /** The node of value `x` of the `j`-th level MERGEd, or the `HAS_...` relationship into it
      created. */
  function ValueWrite(inc: NodeKey, levels: seq<Level>, j: nat, x: string, merge: bool): Write
    requires j < |levels|
  {
    var n := ValueNode(levels[j].nodeLabel, x);
    if merge then Merged(n) else Created(EdgeKey(inc, levels[j].incRel, n))
  }

  /** The chain relationship from value `y` of the `j`-th level to value `x` of the next. */
  function ChainWrite(levels: seq<Level>, j: nat, y: string, x: string): Write
    requires j + 1 < |levels|
  {
    Created(EdgeKey(ValueNode(levels[j].nodeLabel, y), levels[j + 1].chainRel, ValueNode(levels[j + 1].nodeLabel, x)))
  }

  lemma LabelledTail(levels: seq<Level>, inc: NodeKey, parent: Option<NodeKey>, x: string)
    requires levels != [] && Labelled(levels, inc, parent)
    ensures Labelled(levels[1..], inc, Some(ValueNode(levels[0].nodeLabel, x)))
    ensures levels[0].nodeLabel !in Labels(levels[1..])
  {
  }

  /** A deeper level's label is not the first level's, and the deeper levels seen from the
      second are the same levels. */
  lemma Deeper(levels: seq<Level>, inc: NodeKey, j: nat)
    requires Distinct(levels, inc) && 0 < j < |levels|
    ensures levels[j].nodeLabel != levels[0].nodeLabel
    ensures levels[1..][..j - 1] == levels[1..j] && levels[1..][j - 1] == levels[j]
    ensures j + 1 < |levels| ==> levels[1..][j] == levels[j + 1]
  {
    assert levels[1..][j - 1] == levels[j];
    assert levels[j].nodeLabel in Labels(levels[1..]);
  }
  /** A write into a node outside the labels of a nest is not among its writes. */
  lemma NestMisses(inc: NodeKey, parent: Option<NodeKey>, r: Record, levels: seq<Level>, w: Write)
    requires w.Merged? ==> w.node.nodeLabel !in Labels(levels)
    requires w.Created? ==> w.edge.dst.nodeLabel !in Labels(levels)
    ensures NestWrites(inc, parent, r, levels)[w] == 0
  {
    NestShape(inc, parent, r, levels);
    WritesOnly(NestOps(inc, parent, r, levels), w);
    NestWritesSound(inc, parent, r, levels);
  }

  /** The writes of the nest, counted loop by loop. */
  function NestWrites(inc: NodeKey, parent: Option<NodeKey>, r: Record, levels: seq<Level>): multiset<Write>
    decreases |levels|, 1, 0
  {
    if levels == [] then multiset{} else LoopWrites(inc, parent, r, levels, Items(r, levels[0].attr))
  }

  function LoopWrites(inc: NodeKey, parent: Option<NodeKey>, r: Record, levels: seq<Level>, xs: seq<string>): multiset<Write>
    requires levels != []
    decreases |levels|, 0, |xs|
  {
    if xs == [] then multiset{}
    else LoopWrites(inc, parent, r, levels, xs[..|xs| - 1]) + BodyWrites(inc, parent, r, levels, xs[|xs| - 1])
  }

  function BodyWrites(inc: NodeKey, parent: Option<NodeKey>, r: Record, levels: seq<Level>, z: string): multiset<Write>
    requires levels != []
    decreases |levels|, 0, 0
  {
    multiset{ValueWrite(inc, levels, 0, z, true), ValueWrite(inc, levels, 0, z, false)}
    + (if parent.Some? then multiset{Created(EdgeKey(parent.value, levels[0].chainRel, ValueNode(levels[0].nodeLabel, z)))} else multiset{})
    + NestWrites(inc, Some(ValueNode(levels[0].nodeLabel, z)), r, levels[1..])
  }

  lemma {:induction false} NestWritesSound(inc: NodeKey, parent: Option<NodeKey>, r: Record, levels: seq<Level>)
    ensures Writes(NestOps(inc, parent, r, levels)) == NestWrites(inc, parent, r, levels)
    decreases |levels|, 1, 0
  {
    if levels != [] {
      LoopWritesSound(inc, parent, r, levels, Items(r, levels[0].attr));
    }
  }

  lemma {:induction false} LoopWritesSound(inc: NodeKey, parent: Option<NodeKey>, r: Record, levels: seq<Level>, xs: seq<string>)
    requires levels != []
    ensures Writes(LoopOps(inc, parent, r, levels, xs)) == LoopWrites(inc, parent, r, levels, xs)
    decreases |levels|, 0, |xs|
  {
    if xs != [] {
      LoopSplit(inc, parent, r, levels, xs);
      LoopWritesSound(inc, parent, r, levels, xs[..|xs| - 1]);
      BodySplit(inc, parent, r, levels, xs[|xs| - 1]);
      NestWritesSound(inc, Some(ValueNode(levels[0].nodeLabel, xs[|xs| - 1])), r, levels[1..]);
    }
  }
  lemma LoopSplit(inc: NodeKey, parent: Option<NodeKey>, r: Record, levels: seq<Level>, xs: seq<string>)
    requires levels != [] && xs != []
    ensures Writes(LoopOps(inc, parent, r, levels, xs))
         == Writes(LoopOps(inc, parent, r, levels, xs[..|xs| - 1])) + Writes(Body(inc, parent, r, levels, xs[|xs| - 1]))
  {
    WritesAppend(LoopOps(inc, parent, r, levels, xs[..|xs| - 1]), Body(inc, parent, r, levels, xs[|xs| - 1]));
  }

  lemma CountSplit(xs: seq<string>, y: string)
    requires xs != []
    ensures Count(xs, y) == Count(xs[..|xs| - 1], y) + (if y == xs[|xs| - 1] then 1 else 0)
  {
    assert xs == xs[..|xs| - 1] + [xs[|xs| - 1]];
  }

  /** One pass: the node of `z`, the relationship from the enclosing loop's node, the one from
      the incident, and what the loops nested in it write. */
  lemma BodySplit(inc: NodeKey, parent: Option<NodeKey>, r: Record, levels: seq<Level>, z: string)
    requires levels != []
    ensures Writes(Body(inc, parent, r, levels, z))
         == multiset{ValueWrite(inc, levels, 0, z, true), ValueWrite(inc, levels, 0, z, false)}
          + (if parent.Some? then multiset{Created(EdgeKey(parent.value, levels[0].chainRel, ValueNode(levels[0].nodeLabel, z)))} else multiset{})
          + Writes(NestOps(inc, Some(ValueNode(levels[0].nodeLabel, z)), r, levels[1..]))
  {
    WritesAppend(ItemWrites(inc, parent, levels[0], z), NestOps(inc, Some(ValueNode(levels[0].nodeLabel, z)), r, levels[1..]));
    ItemSplit(inc, parent, levels[0], z);
  }

  lemma ItemSplit(inc: NodeKey, parent: Option<NodeKey>, lv: Level, z: string)
    ensures Writes(ItemWrites(inc, parent, lv, z))
         == multiset{Merged(ValueNode(lv.nodeLabel, z)), Created(EdgeKey(inc, lv.incRel, ValueNode(lv.nodeLabel, z)))}
          + (if parent.Some? then multiset{Created(EdgeKey(parent.value, lv.chainRel, ValueNode(lv.nodeLabel, z)))} else multiset{})
  {
    var n := ValueNode(lv.nodeLabel, z);
    var m := NodeMerge(n, Description(z));
    var h := EdgeCreate(EdgeKey(inc, lv.incRel, n));
    WritesOne(m);
    WritesOne(h);
    if parent.Some? {
      var c := EdgeCreate(EdgeKey(parent.value, lv.chainRel, n));
      assert ItemWrites(inc, parent, lv, z) == [m] + [c] + [h];
      WritesOne(c);
      WritesAppend([m] + [c], [h]);
      WritesAppend([m], [c]);
    } else {
      assert ItemWrites(inc, parent, lv, z) == [m] + [h];
      WritesAppend([m], [h]);
    }
  }

  lemma WritesOne(op: Op)
    ensures Writes([op]) == WriteOf(op)
  {
    assert [op][1..] == [];
  }

  /** `a` copies of `b`, counted out so that the proofs about the nest need no
      multiplication. */
  function Mul(a: nat, b: nat): nat
  {
    if a == 0 then 0 else Mul(a - 1, b) + b
  }

  lemma {:induction false} MulIsProduct(a: nat, b: nat)
    ensures Mul(a, b) == a * b
  {
    if a > 0 {
      MulIsProduct(a - 1, b);
    }
  }

  lemma Grow(n: nat, np: nat, nb: nat, len: nat, k: nat)
    requires n == np + nb && 1 <= len && np == Mul(len - 1, k) && nb == k
    ensures n == Mul(len, k)
  {
  }

  lemma GrowPair(n: nat, np: nat, nb: nat, cp: nat, d: nat, k: nat)
    requires n == np + nb && d <= 1 && np == Mul(cp, k) && nb == (if d == 1 then k else 0)
    ensures n == Mul(cp + d, k)
  {
  }

  lemma Assoc(n: nat, len: nat, f: nat, fj: nat, c: nat)
    requires n == Mul(len, Mul(f, c)) && fj == Mul(len, f)
    ensures n == Mul(fj, c)
  {
    MulIsProduct(len, Mul(f, c));
    MulIsProduct(f, c);
    MulIsProduct(len, f);
    MulIsProduct(fj, c);
    assert len * (f * c) == (len * f) * c;
  }

  /** The fan-out of the first `j` levels is the first level's length times that of the next. */
  lemma FanoutPrefix(r: Record, levels: seq<Level>, j: nat)
    requires 0 < j <= |levels|
    ensures Fanout(r, levels[..j]) == Mul(|Items(r, levels[0].attr)|, Fanout(r, levels[1..j]))
  {
    assert levels[..j][1..] == levels[1..j];
  }

  /** Every value of the `j`-th level is merged, and its `HAS_...` relationship created, once
      per run of the enclosing loops' bodies and occurrence in its list. */
  lemma {:induction false} NestCount(inc: NodeKey, parent: Option<NodeKey>, r: Record, levels: seq<Level>, j: nat, x: string, merge: bool)
    requires Labelled(levels, inc, parent) && j < |levels|
    ensures NestWrites(inc, parent, r, levels)[ValueWrite(inc, levels, j, x, merge)]
         == Mul(Fanout(r, levels[..j]), Count(Items(r, levels[j].attr), x))
    decreases |levels|, 1, 0
  {
    var xs := Items(r, levels[0].attr);
    if j == 0 {
      LoopCountTop(inc, parent, r, levels, xs, x, merge);
      assert levels[..j] == [];
    } else {
      LoopCountDeep(inc, parent, r, levels, xs, j, x, merge);
      FanoutPrefix(r, levels, j);
      Assoc(NestWrites(inc, parent, r, levels)[ValueWrite(inc, levels, j, x, merge)], |xs|, Fanout(r, levels[1..j]),
            Fanout(r, levels[..j]), Count(Items(r, levels[j].attr), x));
    }
  }

  /** The loop of the first level merges each of its values once per occurrence. */
  lemma {:induction false} LoopCountTop(inc: NodeKey, parent: Option<NodeKey>, r: Record, levels: seq<Level>, xs: seq<string>, x: string, merge: bool)
    requires Labelled(levels, inc, parent) && levels != []
    ensures LoopWrites(inc, parent, r, levels, xs)[ValueWrite(inc, levels, 0, x, merge)] == Count(xs, x)
    decreases |xs|
  {
    if xs != [] {
      var z := xs[|xs| - 1];
      LoopCountTop(inc, parent, r, levels, xs[..|xs| - 1], x, merge);
      BodyCountTop(inc, parent, r, levels, z, x, merge);
      CountSplit(xs, x);
    }
  }

  lemma BodyCountTop(inc: NodeKey, parent: Option<NodeKey>, r: Record, levels: seq<Level>, z: string, x: string, merge: bool)
    requires Labelled(levels, inc, parent) && levels != []
    ensures BodyWrites(inc, parent, r, levels, z)[ValueWrite(inc, levels, 0, x, merge)] == if x == z then 1 else 0
  {
    LabelledTail(levels, inc, parent, z);
    NestMisses(inc, Some(ValueNode(levels[0].nodeLabel, z)), r, levels[1..], ValueWrite(inc, levels, 0, x, merge));
  }

  /** Each pass of the loop of the first level writes a deeper level's value as often as the
      loops nested in it do. */
  lemma {:induction false} BodyCountDeep(inc: NodeKey, parent: Option<NodeKey>, r: Record, levels: seq<Level>, z: string, j: nat, x: string, merge: bool)
    requires Labelled(levels, inc, parent) && 0 < j < |levels|
    ensures BodyWrites(inc, parent, r, levels, z)[ValueWrite(inc, levels, j, x, merge)]
         == Mul(Fanout(r, levels[1..j]), Count(Items(r, levels[j].attr), x))
    decreases |levels|, 0, 0
  {
    LabelledTail(levels, inc, parent, z);
    Deeper(levels, inc, j);
    NestCount(inc, Some(ValueNode(levels[0].nodeLabel, z)), r, levels[1..], j - 1, x, merge);
  }

  lemma {:induction false} LoopCountDeep(inc: NodeKey, parent: Option<NodeKey>, r: Record, levels: seq<Level>, xs: seq<string>, j: nat, x: string, merge: bool)
    requires Labelled(levels, inc, parent) && 0 < j < |levels|
    ensures LoopWrites(inc, parent, r, levels, xs)[ValueWrite(inc, levels, j, x, merge)]
         == Mul(|xs|, Mul(Fanout(r, levels[1..j]), Count(Items(r, levels[j].attr), x)))
    decreases |levels|, 0, |xs|
  {
    if xs != [] {
      var p := xs[..|xs| - 1];
      var z := xs[|xs| - 1];
      var t := ValueWrite(inc, levels, j, x, merge);
      LoopCountDeep(inc, parent, r, levels, p, j, x, merge);
      BodyCountDeep(inc, parent, r, levels, z, j, x, merge);
      Grow(LoopWrites(inc, parent, r, levels, xs)[t], LoopWrites(inc, parent, r, levels, p)[t],
           BodyWrites(inc, parent, r, levels, z)[t], |xs|, Mul(Fanout(r, levels[1..j]), Count(Items(r, levels[j].attr), x)));
    }
  }

  /** The relationships from a given node into the first level's nodes: those from the
      enclosing loop's node, once per occurrence of the value. */
  lemma {:induction false} NestParent(inc: NodeKey, parent: Option<NodeKey>, r: Record, levels: seq<Level>, q: NodeKey, x: string)
    requires Labelled(levels, inc, parent) && levels != [] && q != inc
    ensures NestWrites(inc, parent, r, levels)[Created(EdgeKey(q, levels[0].chainRel, ValueNode(levels[0].nodeLabel, x)))]
         == if parent == Some(q) then Count(Items(r, levels[0].attr), x) else 0
  {
    LoopParent(inc, parent, r, levels, Items(r, levels[0].attr), q, x);
  }

  lemma {:induction false} LoopParent(inc: NodeKey, parent: Option<NodeKey>, r: Record, levels: seq<Level>, xs: seq<string>, q: NodeKey, x: string)
    requires Labelled(levels, inc, parent) && levels != [] && q != inc
    ensures LoopWrites(inc, parent, r, levels, xs)[Created(EdgeKey(q, levels[0].chainRel, ValueNode(levels[0].nodeLabel, x)))]
         == if parent == Some(q) then Count(xs, x) else 0
    decreases |xs|
  {
    if xs != [] {
      var z := xs[|xs| - 1];
      LoopParent(inc, parent, r, levels, xs[..|xs| - 1], q, x);
      BodyParent(inc, parent, r, levels, z, q, x);
      CountSplit(xs, x);
    }
  }

  lemma BodyParent(inc: NodeKey, parent: Option<NodeKey>, r: Record, levels: seq<Level>, z: string, q: NodeKey, x: string)
    requires Labelled(levels, inc, parent) && levels != [] && q != inc
    ensures BodyWrites(inc, parent, r, levels, z)[Created(EdgeKey(q, levels[0].chainRel, ValueNode(levels[0].nodeLabel, x)))]
         == if parent == Some(q) && x == z then 1 else 0
  {
    LabelledTail(levels, inc, parent, z);
    NestMisses(inc, Some(ValueNode(levels[0].nodeLabel, z)), r, levels[1..], Created(EdgeKey(q, levels[0].chainRel, ValueNode(levels[0].nodeLabel, x))));
  }

  /** Every chain relationship from a value `y` of the `j`-th level to a value `x` of the next is
      created once per run of the enclosing loops' bodies, occurrence of `y` and occurrence
      of `x`. */
  lemma {:induction false} NestChain(inc: NodeKey, parent: Option<NodeKey>, r: Record, levels: seq<Level>, j: nat, y: string, x: string)
    requires Labelled(levels, inc, parent) && j + 1 < |levels|
    ensures NestWrites(inc, parent, r, levels)[ChainWrite(levels, j, y, x)]
         == Mul(Fanout(r, levels[..j]), Mul(Count(Items(r, levels[j].attr), y), Count(Items(r, levels[j + 1].attr), x)))
    decreases |levels|, 1, 0
  {
    var xs := Items(r, levels[0].attr);
    var c := Mul(Count(Items(r, levels[j].attr), y), Count(Items(r, levels[j + 1].attr), x));
    if j == 0 {
      LoopChainTop(inc, parent, r, levels, xs, y, x);
      assert levels[..j] == [];
    } else {
      LoopChainDeep(inc, parent, r, levels, xs, j, y, x);
      FanoutPrefix(r, levels, j);
      Assoc(NestWrites(inc, parent, r, levels)[ChainWrite(levels, j, y, x)], |xs|, Fanout(r, levels[1..j]), Fanout(r, levels[..j]), c);
    }
  }

  /** The loop of the first level creates a relationship from each of its values to each value
      of the second level once per pair of occurrences. */
  lemma BodyChainTop(inc: NodeKey, parent: Option<NodeKey>, r: Record, levels: seq<Level>, z: string, y: string, x: string)
    requires Labelled(levels, inc, parent) && 1 < |levels|
    ensures BodyWrites(inc, parent, r, levels, z)[ChainWrite(levels, 0, y, x)] == if y == z then Count(Items(r, levels[1].attr), x) else 0
  {
    LabelledTail(levels, inc, parent, z);
    Deeper(levels, inc, 1);
    NestParent(inc, Some(ValueNode(levels[0].nodeLabel, z)), r, levels[1..], ValueNode(levels[0].nodeLabel, y), x);
  }

  lemma {:induction false} LoopChainTop(inc: NodeKey, parent: Option<NodeKey>, r: Record, levels: seq<Level>, xs: seq<string>, y: string, x: string)
    requires Labelled(levels, inc, parent) && 1 < |levels|
    ensures LoopWrites(inc, parent, r, levels, xs)[ChainWrite(levels, 0, y, x)] == Mul(Count(xs, y), Count(Items(r, levels[1].attr), x))
    decreases |xs|
  {
    if xs != [] {
      var p := xs[..|xs| - 1];
      var z := xs[|xs| - 1];
      var t := ChainWrite(levels, 0, y, x);
      LoopChainTop(inc, parent, r, levels, p, y, x);
      BodyChainTop(inc, parent, r, levels, z, y, x);
      CountSplit(xs, y);
      GrowPair(LoopWrites(inc, parent, r, levels, xs)[t], LoopWrites(inc, parent, r, levels, p)[t],
               BodyWrites(inc, parent, r, levels, z)[t], Count(p, y), if y == z then 1 else 0, Count(Items(r, levels[1].attr), x));
    }
  }

  /** Each pass of the loop of the first level creates a deeper chain relationship as often as
      the loops nested in it do. */
  lemma {:induction false} BodyChainDeep(inc: NodeKey, parent: Option<NodeKey>, r: Record, levels: seq<Level>, z: string, j: nat, y: string, x: string)
    requires Labelled(levels, inc, parent) && 0 < j && j + 1 < |levels|
    ensures BodyWrites(inc, parent, r, levels, z)[ChainWrite(levels, j, y, x)]
         == Mul(Fanout(r, levels[1..j]), Mul(Count(Items(r, levels[j].attr), y), Count(Items(r, levels[j + 1].attr), x)))
    decreases |levels|, 0, 0
  {
    LabelledTail(levels, inc, parent, z);
    Deeper(levels, inc, j);
    Deeper(levels, inc, j + 1);
    NestChain(inc, Some(ValueNode(levels[0].nodeLabel, z)), r, levels[1..], j - 1, y, x);
  }

  lemma {:induction false} LoopChainDeep(inc: NodeKey, parent: Option<NodeKey>, r: Record, levels: seq<Level>, xs: seq<string>, j: nat, y: string, x: string)
    requires Labelled(levels, inc, parent) && 0 < j && j + 1 < |levels|
    ensures LoopWrites(inc, parent, r, levels, xs)[ChainWrite(levels, j, y, x)]
         == Mul(|xs|, Mul(Fanout(r, levels[1..j]), Mul(Count(Items(r, levels[j].attr), y), Count(Items(r, levels[j + 1].attr), x))))
    decreases |levels|, 0, |xs|
  {
    if xs != [] {
      var p := xs[..|xs| - 1];
      var z := xs[|xs| - 1];
      var t := ChainWrite(levels, j, y, x);
      LoopChainDeep(inc, parent, r, levels, p, j, y, x);
      BodyChainDeep(inc, parent, r, levels, z, j, y, x);
      Grow(LoopWrites(inc, parent, r, levels, xs)[t], LoopWrites(inc, parent, r, levels, p)[t],
           BodyWrites(inc, parent, r, levels, z)[t], |xs|, Mul(Fanout(r, levels[1..j]), Mul(Count(Items(r, levels[j].attr), y), Count(Items(r, levels[j + 1].attr), x))));
    }
  }

  // ----- one record -----

  lemma LevelsLabelled(inc: NodeKey)
    requires inc.nodeLabel == "Incident"
    ensures Labelled(Levels, inc, None)
  {
    var l := Levels;
    assert Labels(l[4..]) == {"CorrectiveAction"} by { LabelsTail(l[4..]); assert l[4..][1..] == []; }
    assert Distinct(l[4..], inc) by { assert l[4..][1..] == []; }
    assert Labels(l[3..]) == {"Influence", "CorrectiveAction"} by { LabelsTail(l[3..]); assert l[3..][1..] == l[4..]; }
    assert Distinct(l[3..], inc) by { assert l[3..][1..] == l[4..]; }
    assert Labels(l[2..]) == {"Event", "Influence", "CorrectiveAction"} by { LabelsTail(l[2..]); assert l[2..][1..] == l[3..]; }
    assert Distinct(l[2..], inc) by { assert l[2..][1..] == l[3..]; }
    assert Labels(l[1..]) == {"Cause", "Event", "Influence", "CorrectiveAction"} by { LabelsTail(l[1..]); assert l[1..][1..] == l[2..]; }
    assert Distinct(l[1..], inc) by { assert l[1..][1..] == l[2..]; }
  }

  /** The record's writes, counted: the Incident node and the nest. */
  lemma RecordWritesSplit(r: Record)
    requires Complete(r.metadata)
    ensures Writes(RecordWrites(r)) == multiset{Merged(IncidentNode(r.filename))} + NestWrites(IncidentNode(r.filename), None, r, Levels)
  {
    var inc := IncidentNode(r.filename);
    var op := NodeMerge(inc, IncidentFields(r.filename, r.metadata));
    WritesAppend([op], NestOps(inc, None, r, Levels));
    WritesOne(op);
    NestWritesSound(inc, None, r, Levels);
  }

  /** For a record with complete metadata, each value `x` listed under the `j`-th attribute is
      MERGEd as a node, and the relationship from the incident to it created, once for every
      combination of the values of the enclosing loops and every time `x` is listed. */
  lemma RecordValueCount(r: Record, j: nat, x: string)
    requires Complete(r.metadata) && j < |Levels|
    ensures Writes(RecordWrites(r))[Merged(ValueNode(Levels[j].nodeLabel, x))]
         == Fanout(r, Levels[..j]) * Count(Items(r, Levels[j].attr), x)
    ensures Writes(RecordWrites(r))[Created(EdgeKey(IncidentNode(r.filename), Levels[j].incRel, ValueNode(Levels[j].nodeLabel, x)))]
         == Fanout(r, Levels[..j]) * Count(Items(r, Levels[j].attr), x)
  {
    var inc := IncidentNode(r.filename);
    LevelsLabelled(inc);
    RecordWritesSplit(r);
    NestCount(inc, None, r, Levels, j, x, true);
    NestCount(inc, None, r, Levels, j, x, false);
    MulIsProduct(Fanout(r, Levels[..j]), Count(Items(r, Levels[j].attr), x));
    assert Levels[j].nodeLabel != "Incident";
  }

  /** For a record with complete metadata, the relationship from value `y` of the `j`-th
      attribute to value `x` of the next is created once for every combination of the values
      of the enclosing loops, every time `y` is listed and every time `x` is listed. */
  lemma RecordChainCount(r: Record, j: nat, y: string, x: string)
    requires Complete(r.metadata) && j + 1 < |Levels|
    ensures Writes(RecordWrites(r))[Created(EdgeKey(ValueNode(Levels[j].nodeLabel, y), Levels[j + 1].chainRel, ValueNode(Levels[j + 1].nodeLabel, x)))]
         == Fanout(r, Levels[..j]) * Count(Items(r, Levels[j].attr), y) * Count(Items(r, Levels[j + 1].attr), x)
  {
    var inc := IncidentNode(r.filename);
    var a, b, c := Fanout(r, Levels[..j]), Count(Items(r, Levels[j].attr), y), Count(Items(r, Levels[j + 1].attr), x);
    LevelsLabelled(inc);
    RecordWritesSplit(r);
    NestChain(inc, None, r, Levels, j, y, x);
    MulTriple(a, b, c);
  }

  lemma MulTriple(a: nat, b: nat, c: nat)
    ensures Mul(a, Mul(b, c)) == a * b * c
  {
    MulIsProduct(b, c);
    MulIsProduct(a, b * c);
    assert a * (b * c) == a * b * c;
  }

  /** A record without tasks writes only its Incident node: every other loop is nested in the
      task loop. */
  lemma NoTaskNoNest(r: Record)
    requires Complete(r.metadata) && Items(r, "Task") == []
    ensures RecordWrites(r) == [NodeMerge(IncidentNode(r.filename), IncidentFields(r.filename, r.metadata))]
  {
    assert NestOps(IncidentNode(r.filename), None, r, Levels) == [];
  }

  // ----- the database after one record -----

  /** When every MERGE of `n` in `ops` SETs the same properties `p`, `n` ends up with its old
      properties updated by `p` if `ops` MERGEs it at all, and unchanged otherwise. */
  lemma {:induction false} SameMerges(s: GraphState, ops: seq<Op>, n: NodeKey, p: Props)
    requires forall op | op in ops :: op.NodeMerge? && op.node == n ==> op.sets == p
    ensures PropsOf(ApplyAll(s, ops).nodes, n) == if Writes(ops)[Merged(n)] > 0 then PropsOf(s.nodes, n) + p else PropsOf(s.nodes, n)
    decreases |ops|
  {
    if ops != [] {
      assert ops[0] in ops;
      forall op | op in ops[1..] ensures op.NodeMerge? && op.node == n ==> op.sets == p {
        assert op in ops;
      }
      SameMerges(Apply(s, ops[0]), ops[1..], n, p);
      ApplyProps(s, ops[0], n);
      if ops[0].NodeMerge? && ops[0].node == n {
        UnionTwice(PropsOf(s.nodes, n), p);
      }
    }
  }

  /** One write changes the properties of `n` only if it MERGEs `n`. */
  lemma ApplyProps(s: GraphState, op: Op, n: NodeKey)
    ensures PropsOf(Apply(s, op).nodes, n) == if op.NodeMerge? && op.node == n then PropsOf(s.nodes, n) + op.sets else PropsOf(s.nodes, n)
  {
  }

  /** Every MERGE of a value's node SETs that value as its description. */
  lemma ValueMerges(r: Record, j: nat, x: string)
    requires Complete(r.metadata) && j < |Levels|
    ensures forall op | op in RecordWrites(r) :: op.NodeMerge? && op.node == ValueNode(Levels[j].nodeLabel, x) ==> op.sets == Description(x)
  {
    NestShape(IncidentNode(r.filename), None, r, Levels);
  }

  lemma CountPositive(xs: seq<string>, x: string)
    ensures Count(xs, x) > 0 <==> x in xs
  {
  }

  lemma ProductPositive(a: nat, b: nat)
    ensures a * b > 0 <==> a > 0 && b > 0
  {
  }

  /** After a record with complete metadata, the node of a value `x` listed under the `j`-th
      attribute carries `x` as its description, provided every enclosing loop has a value;
      otherwise the script never reaches it and leaves it as it was. */
  lemma RecordValueProps(s: GraphState, r: Record, j: nat, x: string)
    requires Complete(r.metadata) && j < |Levels|
    ensures PropsOf(ApplyAll(s, RecordWrites(r)).nodes, ValueNode(Levels[j].nodeLabel, x))
         == if Fanout(r, Levels[..j]) > 0 && x in Items(r, Levels[j].attr)
            then PropsOf(s.nodes, ValueNode(Levels[j].nodeLabel, x)) + map["description" := Str(x)]
            else PropsOf(s.nodes, ValueNode(Levels[j].nodeLabel, x))
  {
    ValueMerges(r, j, x);
    SameMerges(s, RecordWrites(r), ValueNode(Levels[j].nodeLabel, x), Description(x));
    RecordValueCount(r, j, x);
    CountPositive(Items(r, Levels[j].attr), x);
    ProductPositive(Fanout(r, Levels[..j]), Count(Items(r, Levels[j].attr), x));
  }

  /** After a record with complete metadata, its Incident node carries the file name, title,
      event date, facility and unit, over whatever it had before. */
  lemma RecordIncident(s: GraphState, r: Record)
    requires Complete(r.metadata)
    ensures PropsOf(ApplyAll(s, RecordWrites(r)).nodes, IncidentNode(r.filename))
         == PropsOf(s.nodes, IncidentNode(r.filename)) + IncidentFields(r.filename, r.metadata)
  {
    var inc := IncidentNode(r.filename);
    LevelsLabelled(inc);
    NestShape(inc, None, r, Levels);
    assert inc.nodeLabel !in Labels(Levels);
    SameMerges(s, RecordWrites(r), inc, IncidentFields(r.filename, r.metadata));
    RecordWritesSplit(r);
  }

  /** Running the script again on the same record creates every relationship again: the
      relationships it creates are now there twice as often. */
  lemma RerunDuplicates(s: GraphState, r: Record, e: EdgeKey)
    requires Complete(r.metadata)
    ensures ApplyAll(ApplyAll(s, RecordWrites(r)), RecordWrites(r)).created[e] == s.created[e] + 2 * Writes(RecordWrites(r))[Created(e)]
  {
    ApplyAllCreated(s, RecordWrites(r), e);
    ApplyAllCreated(ApplyAll(s, RecordWrites(r)), RecordWrites(r), e);
  }

  /** So the script is not idempotent: a record with a task changes the database every time
      it is run. */
  lemma RerunChanges(s: GraphState, r: Record)
    requires Complete(r.metadata) && Items(r, "Task") != []
    ensures ApplyAll(ApplyAll(s, RecordWrites(r)), RecordWrites(r)) != ApplyAll(s, RecordWrites(r))
  {
    var x := Items(r, "Task")[0];
    var e := EdgeKey(IncidentNode(r.filename), "HAS_TASK", ValueNode("Task", x));
    RecordValueCount(r, 0, x);
    assert Levels[..0] == [];
    CountPositive(Items(r, "Task"), x);
    RerunDuplicates(s, r, e);
    ApplyAllCreated(s, RecordWrites(r), e);
  }

  /** The record loop gets through every record exactly when every record's metadata is
      complete. */
  lemma {:induction false} BuildAllOk(s: GraphState, data: seq<Record>)
    ensures BuildAll(s, data).1 <==> forall i | 0 <= i < |data| :: Complete(data[i].metadata)
    decreases |data|
  {
    if data != [] {
      var p := data[..|data| - 1];
      BuildAllOk(s, p);
      assert forall i | 0 <= i < |p| :: p[i] == data[i];
    }
  }
}
