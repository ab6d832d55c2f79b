/** `knowledge_graph/9_restruct.py`: four Cypher queries, run one after the other, that chain
    the value nodes of each incident into Task -> Cause -> Event -> Influence -> Corrective
    Action.

    Each query has the form
      `MATCH (i:Incident)-[:A]->(x:LA), (i)-[:B]->(y:LB) MERGE (x)-[:R]->(y)`:
    for every incident with an `A` relationship to an `LA` node and a `B` relationship to an
    `LB` node it MERGEs an `R` relationship from the first node to the second, without
    properties. The MERGE finds a relationship of that type between the two nodes whether it
    was MERGEd or `create`d before, and makes one only when there is none. */
module Restruct {
  import opened Records
  import opened PropertyGraph
  import opened IncidentIngest
  import opened TaskGraph

  datatype Query = Query(relA: string, labelA: string, relB: string, labelB: string, rel: string)

  /** The four queries as the script writes them. */
  const Queries: seq<Query> := [
    Query("RELATED_TO_TASK", "Task", "HAS_CAUSE", "Cause", "CAUSES"),
    Query("HAS_CAUSE", "Cause", "HAS_EVENT", "Event", "TRIGGERS"),
    Query("HAS_EVENT", "Event", "HAS_INFLUENCE", "Influence", "IMPACTS"),
    Query("HAS_INFLUENCE", "Influence", "HAS_CORRECTIVE_ACTIONS", "CorrectiveAction", "ADDRESSED_BY")]

  /** The queries with the label the Task graph gives its corrective-action nodes. */
  const FixedQueries: seq<Query> := Queries[3 := Query("HAS_INFLUENCE", "Influence", "HAS_CORRECTIVE_ACTIONS", "CorrectiveActions", "ADDRESSED_BY")]

  /** Every relationship of the database, MERGEd or created. */
  function Rels(s: GraphState): set<EdgeKey>
  {
    s.edges.Keys + (set e | e in s.created)
  }

  /** `a` and `b` are the two relationships of one match of the query's pattern. */
  predicate Joins(q: Query, a: EdgeKey, b: EdgeKey)
  {
    && a.src == b.src && a.src.nodeLabel == "Incident"
    && a.rel == q.relA && a.dst.nodeLabel == q.labelA
    && b.rel == q.relB && b.dst.nodeLabel == q.labelB
  }

  /** The relationships the query's MERGE asks for, given the relationships `rels`. */
  function Derived(rels: set<EdgeKey>, q: Query): set<EdgeKey>
  {
    set a, b | a in rels && b in rels && Joins(q, a, b) :: EdgeKey(a.dst, q.rel, b.dst)
  }

  /** The relationships of `ds` the database lacks, each new and without properties. */
  function Added(s: GraphState, ds: set<EdgeKey>): map<EdgeKey, Props>
  {
    map e | e in ds - Rels(s) :: map[]
  }

  /** The database with the relationships of `ds` it lacks MERGEd in. */
  function Extend(s: GraphState, ds: set<EdgeKey>): GraphState
  {
    s.(edges := s.edges + Added(s, ds))
  }

  /** `graph.run(query)`. */
  function RunQuery(s: GraphState, q: Query): GraphState
  {
    Extend(s, Derived(Rels(s), q))
  }

  /** The queries run in order. */
  function RunQueries(s: GraphState, qs: seq<Query>): GraphState
  {
    if qs == [] then s else RunQuery(RunQueries(s, qs[..|qs| - 1]), qs[|qs| - 1])
  }

  /** No query reads a relationship type that one of them writes, and no two write the same. */
  predicate Independent(qs: seq<Query>)
  {
    && (forall k, l | 0 <= k < |qs| && 0 <= l < |qs| :: qs[k].rel != qs[l].relA && qs[k].rel != qs[l].relB)
    && (forall k, l | 0 <= k < l < |qs| :: qs[k].rel != qs[l].rel)
  }

  /** The relationships some query of `qs` asks for, on the relationships `rels`. */
  function AllDerived(rels: set<EdgeKey>, qs: seq<Query>): set<EdgeKey>
  {
    set k, e | 0 <= k < |qs| && e in Derived(rels, qs[k]) :: e
  }

  method RunQueryOn(g: GraphStore, q: Query)
    modifies g
    ensures g.State() == RunQuery(old(g.State()), q)
  {
    var ds := Derived(Rels(g.State()), q);
    g.edges := g.edges + Added(g.State(), ds);
  }

  /** `restructure_graph_relationships(graph)`. */
  method RestructureGraphRelationships(g: GraphStore, qs: seq<Query>)
    modifies g
    ensures g.State() == RunQueries(old(g.State()), qs)
  {
    for k := 0 to |qs|
      invariant g.State() == RunQueries(old(g.State()), qs[..k])
    {
      RunQueryOn(g, qs[k]);
      assert qs[..k + 1][..k] == qs[..k];
    }
    assert qs[..|qs|] == qs;
  }

  /** The types the script's queries read start with `R` or `H`, those they write with other,
      pairwise distinct letters. */
  lemma QueriesIndependent()
    ensures Independent(Queries) && Independent(FixedQueries)
  {
    InitialsIndependent(Queries);
    InitialsIndependent(FixedQueries);
  }

  lemma InitialsIndependent(qs: seq<Query>)
    requires forall k | 0 <= k < |qs| :: qs[k].rel != [] && qs[k].relA != [] && qs[k].relB != []
    requires forall k | 0 <= k < |qs| :: qs[k].relA[0] in "RH" && qs[k].relB[0] in "RH" && qs[k].rel[0] !in "RH"
    requires forall k, l | 0 <= k < l < |qs| :: qs[k].rel[0] != qs[l].rel[0]
    ensures Independent(qs)
  {
  }

  // ----- one query -----

  /** MERGEing relationships adds exactly those that are missing, each without properties, and
      changes nothing else: the nodes, the created relationships and the properties of every
      MERGEd relationship stay. */
  lemma ExtendEffect(s: GraphState, ds: set<EdgeKey>)
    ensures Extend(s, ds).nodes == s.nodes && Extend(s, ds).created == s.created
    ensures Rels(Extend(s, ds)) == Rels(s) + ds
    ensures forall e | e in s.edges :: e in Extend(s, ds).edges && Extend(s, ds).edges[e] == s.edges[e]
    ensures forall e | e in Extend(s, ds).edges && e !in s.edges :: Extend(s, ds).edges[e] == map[] && e in ds
  {
    var r := Extend(s, ds);
    forall e | e in ds ensures e in Rels(r) {
      if e !in Rels(s) {
        assert e in Added(s, ds);
      }
    }
  }

  lemma ExtendTwice(s: GraphState, a: set<EdgeKey>, d: set<EdgeKey>)
    ensures Extend(Extend(s, a), d) == Extend(s, a + d)
  {
    ExtendEffect(s, a);
    var t := Extend(s, a);
    assert Added(t, d) == map e | e in d - Rels(s) - a :: map[];
    assert t.edges + Added(t, d) == s.edges + Added(s, a + d);
  }

  lemma ExtendNothing(s: GraphState, ds: set<EdgeKey>)
    requires ds <= Rels(s)
    ensures Extend(s, ds) == s
  {
    assert Added(s, ds) == map[];
    assert s.edges + map[] == s.edges;
  }

  /** A query adds exactly the relationships it asks for that are missing, each of its type. */
  lemma RunQueryEffect(s: GraphState, q: Query)
    ensures RunQuery(s, q).nodes == s.nodes && RunQuery(s, q).created == s.created
    ensures Rels(RunQuery(s, q)) == Rels(s) + Derived(Rels(s), q)
    ensures forall e | e in s.edges :: e in RunQuery(s, q).edges && RunQuery(s, q).edges[e] == s.edges[e]
    ensures forall e | e in RunQuery(s, q).edges && e !in s.edges :: RunQuery(s, q).edges[e] == map[] && e.rel == q.rel
  {
    ExtendEffect(s, Derived(Rels(s), q));
  }

  /** Relationships of types the query does not read leave what it asks for unchanged. */
  lemma DerivedIgnores(rels: set<EdgeKey>, extra: set<EdgeKey>, q: Query)
    requires forall e | e in extra :: e.rel != q.relA && e.rel != q.relB
    ensures Derived(rels + extra, q) == Derived(rels, q)
  {
    forall e | e in Derived(rels + extra, q) ensures e in Derived(rels, q) {
      var a, b :| a in rels + extra && b in rels + extra && Joins(q, a, b) && e == EdgeKey(a.dst, q.rel, b.dst);
      assert a in rels && b in rels;
    }
  }

  /** Running a query a second time changes nothing. */
  lemma RunQueryIdempotent(s: GraphState, q: Query)
    requires q.rel != q.relA && q.rel != q.relB
    ensures RunQuery(RunQuery(s, q), q) == RunQuery(s, q)
  {
    RunQueryEffect(s, q);
    var d := Derived(Rels(s), q);
    DerivedIgnores(Rels(s), d, q);
    ExtendNothing(RunQuery(s, q), d);
  }

  // ----- the four queries -----

  lemma IndependentPrefix(qs: seq<Query>, n: nat)
    requires Independent(qs) && n <= |qs|
    ensures Independent(qs[..n])
  {
  }

  lemma AllDerivedSnoc(rels: set<EdgeKey>, qs: seq<Query>)
    requires qs != []
    ensures AllDerived(rels, qs) == AllDerived(rels, qs[..|qs| - 1]) + Derived(rels, qs[|qs| - 1])
  {
    var p := qs[..|qs| - 1];
    forall e | e in AllDerived(rels, qs) ensures e in AllDerived(rels, p) + Derived(rels, qs[|qs| - 1]) {
      var k :| 0 <= k < |qs| && e in Derived(rels, qs[k]);
      if k < |p| {
        assert qs[k] == p[k];
      }
    }
    forall e | e in AllDerived(rels, p) ensures e in AllDerived(rels, qs) {
      var k :| 0 <= k < |p| && e in Derived(rels, p[k]);
      assert qs[k] == p[k];
    }
  }

  /** What the queries of `qs` ask for is never read by a query that reads none of their types. */
  lemma AllDerivedUnread(rels: set<EdgeKey>, qs: seq<Query>, q: Query)
    requires forall k | 0 <= k < |qs| :: qs[k].rel != q.relA && qs[k].rel != q.relB
    ensures forall e | e in AllDerived(rels, qs) :: e.rel != q.relA && e.rel != q.relB
  {
    forall e | e in AllDerived(rels, qs) ensures e.rel != q.relA && e.rel != q.relB {
      var k :| 0 <= k < |qs| && e in Derived(rels, qs[k]);
    }
  }

  /** The queries together add what each asks for of the ORIGINAL relationships: no query sees
      what an earlier one added, so their order does not matter. */
  lemma {:induction false} RunQueriesEffect(s: GraphState, qs: seq<Query>)
    requires Independent(qs)
    ensures RunQueries(s, qs) == Extend(s, AllDerived(Rels(s), qs))
    decreases |qs|
  {
    if qs == [] {
      assert AllDerived(Rels(s), qs) == {};
      ExtendNothing(s, {});
    } else {
      var p := qs[..|qs| - 1];
      var q := qs[|qs| - 1];
      IndependentPrefix(qs, |qs| - 1);
      RunQueriesEffect(s, p);
      var a := AllDerived(Rels(s), p);
      ExtendEffect(s, a);
      AllDerivedUnread(Rels(s), p, q);
      DerivedIgnores(Rels(s), a, q);
      ExtendTwice(s, a, Derived(Rels(s), q));
      AllDerivedSnoc(Rels(s), qs);
    }
  }

  /** Running the four queries twice leaves the database as running them once. */
  lemma RestructureIdempotent(s: GraphState, qs: seq<Query>)
    requires Independent(qs)
    ensures RunQueries(RunQueries(s, qs), qs) == RunQueries(s, qs)
  {
    var a := AllDerived(Rels(s), qs);
    var t := Extend(s, a);
    RunQueriesEffect(s, qs);
    RunQueriesEffect(t, qs);
    DerivedStable(s, qs);
    ExtendEffect(s, a);
    ExtendNothing(t, a);
  }

  /** What the queries ask for does not change once it is added. */
  lemma DerivedStable(s: GraphState, qs: seq<Query>)
    requires Independent(qs)
    ensures AllDerived(Rels(Extend(s, AllDerived(Rels(s), qs))), qs) == AllDerived(Rels(s), qs)
  {
    var a := AllDerived(Rels(s), qs);
    var t := Extend(s, a);
    ExtendEffect(s, a);
    forall k | 0 <= k < |qs| ensures Derived(Rels(t), qs[k]) == Derived(Rels(s), qs[k]) {
      AllDerivedUnread(Rels(s), qs, qs[k]);
      DerivedIgnores(Rels(s), a, qs[k]);
    }
  }

  /** After the queries, an `R` relationship from `x` to `y` for the query writing `R` exists
      exactly when it existed before or some incident has the query's two relationships to `x`
      and to `y`; the nodes, the created relationships and the properties of the MERGEd ones
      stay. */
  lemma RestructureIff(s: GraphState, qs: seq<Query>, k: nat, x: NodeKey, y: NodeKey)
    requires Independent(qs) && k < |qs|
    ensures RunQueries(s, qs).nodes == s.nodes && RunQueries(s, qs).created == s.created
    ensures forall e | e in s.edges :: e in RunQueries(s, qs).edges && RunQueries(s, qs).edges[e] == s.edges[e]
    ensures EdgeKey(x, qs[k].rel, y) in Rels(RunQueries(s, qs))
        <==> (|| EdgeKey(x, qs[k].rel, y) in Rels(s)
              || (x.nodeLabel == qs[k].labelA && y.nodeLabel == qs[k].labelB
                  && exists i: NodeKey | i.nodeLabel == "Incident" :: EdgeKey(i, qs[k].relA, x) in Rels(s) && EdgeKey(i, qs[k].relB, y) in Rels(s)))
  {
    var e := EdgeKey(x, qs[k].rel, y);
    var a := AllDerived(Rels(s), qs);
    RunQueriesEffect(s, qs);
    ExtendEffect(s, a);
    if e in a {
      var l :| 0 <= l < |qs| && e in Derived(Rels(s), qs[l]);
      assert l == k;
      var p, b :| p in Rels(s) && b in Rels(s) && Joins(qs[k], p, b) && e == EdgeKey(p.dst, qs[k].rel, b.dst);
      assert EdgeKey(p.src, qs[k].relA, x) == p;
    }
    if x.nodeLabel == qs[k].labelA && y.nodeLabel == qs[k].labelB
       && exists i: NodeKey | i.nodeLabel == "Incident" :: EdgeKey(i, qs[k].relA, x) in Rels(s) && EdgeKey(i, qs[k].relB, y) in Rels(s)
    {
      var i: NodeKey :| i.nodeLabel == "Incident" && EdgeKey(i, qs[k].relA, x) in Rels(s) && EdgeKey(i, qs[k].relB, y) in Rels(s);
      assert Joins(qs[k], EdgeKey(i, qs[k].relA, x), EdgeKey(i, qs[k].relB, y));
      assert e in Derived(Rels(s), qs[k]);
    }
  }

  // ----- the fourth query against the Task graph -----

  /** In the Task graph every `HAS_CORRECTIVE_ACTIONS` relationship ends at a
      `CorrectiveActions` node. */
  predicate ActionsTyped(rels: set<EdgeKey>)
  {
    forall e | e in rels && e.rel == "HAS_CORRECTIVE_ACTIONS" :: e.dst.nodeLabel == "CorrectiveActions"
  }

  /** What the Task graph script MERGEs for a record is typed that way. */
  lemma TaskRecordTyped(cfr: CfrDict, r: Record)
    requires Complete(r.metadata)
    ensures ActionsTyped(RecordEdges(TaskScript, cfr, r))
  {
    forall e | e in RecordEdges(TaskScript, cfr, r) && e.rel == "HAS_CORRECTIVE_ACTIONS"
      ensures e.dst.nodeLabel == "CorrectiveActions"
    {
      var inc := IncidentNode(r.filename);
      if e in RuleEdges(inc, r, TaskRules) {
        var ru, x :| ru in TaskRules && x in Items(r, ru.name) && e == EdgeKey(inc, ru.rel, ValueNode(ru.nodeLabel, x));
      }
    }
  }

  /** As written, the fourth query looks for `CorrectiveAction` nodes, so on the Task graph it
      never matches and no `ADDRESSED_BY` relationship is made. */
  lemma AddressedByNeverMade(s: GraphState)
    requires ActionsTyped(Rels(s))
    requires forall e | e in Rels(s) :: e.rel != "ADDRESSED_BY"
    ensures Derived(Rels(s), Queries[3]) == {}
    ensures forall e | e in Rels(RunQueries(s, Queries)) :: e.rel != "ADDRESSED_BY"
  {
    var q := Queries[3];
    forall a, b | a in Rels(s) && b in Rels(s) ensures !Joins(q, a, b) {
    }
    assert Derived(Rels(s), q) == {};
    QueriesIndependent();
    RunQueriesEffect(s, Queries);
    ExtendEffect(s, AllDerived(Rels(s), Queries));
    forall e | e in AllDerived(Rels(s), Queries) ensures e.rel != "ADDRESSED_BY" {
      var k :| 0 <= k < |Queries| && e in Derived(Rels(s), Queries[k]);
    }
  }

  /** With the label corrected, every incident's Influence and corrective-action nodes are
      linked by `ADDRESSED_BY`. */
  lemma AddressedByMade(s: GraphState, inc: NodeKey, x: string, y: string)
    requires inc.nodeLabel == "Incident"
    requires EdgeKey(inc, "HAS_INFLUENCE", ValueNode("Influence", x)) in Rels(s)
    requires EdgeKey(inc, "HAS_CORRECTIVE_ACTIONS", ValueNode("CorrectiveActions", y)) in Rels(s)
    ensures EdgeKey(ValueNode("Influence", x), "ADDRESSED_BY", ValueNode("CorrectiveActions", y)) in Rels(RunQueries(s, FixedQueries))
  {
    QueriesIndependent();
    RestructureIff(s, FixedQueries, 3, ValueNode("Influence", x), ValueNode("CorrectiveActions", y));
  }
}
