/** The four steps both Neo4j graph scripts (`knowledge_graph/8_kg.py` and
    `knowledge_graph/8_kg_HSI.py`) run at module level, one after the other: empty the database,
    MERGE one CFR node per entry of `cfr_dict`, ingest every record in its own write
    transaction, and link the pairs of incidents whose similarity reaches the threshold.

    The two scripts differ only in the attribute rules of Step 3 and in the pass of Step 4,
    which are the parameters here. An exception in Step 3 ends the script, so Step 4 then never
    runs. */
module GraphScript {
  import opened Records
  import opened PropertyGraph
  import opened IncidentIngest
  import opened Linking

  /** The database after Steps 1 and 2: the CFR nodes and nothing else. */
  function CfrLoaded(cfr: CfrDict): GraphState
  {
    GraphState(Overlay(map[], CfrNodes(cfr, cfr.Keys)), map[], multiset{})
  }

  /** The database the script leaves, and whether it ran to the end. */
  function Built(sc: Script, lk: Linker, cfr: CfrDict, sim: Oracle, data: seq<Record>): (GraphState, bool)
  {
    var (s3, ok) := IngestAll(sc, cfr, CfrLoaded(cfr), data);
    if ok then (ApplyAll(s3, LinkAll(lk, sim, data)), true) else (s3, false)
  }

  /** Steps 1 to 4 in order. */
  method BuildGraph(g: GraphStore, sc: Script, lk: Linker, cfr: CfrDict, sim: Oracle, data: seq<Record>)
    returns (ok: bool)
    modifies g
    ensures (g.State(), ok) == Built(sc, lk, cfr, sim, data)
  {
    g.DeleteAll();
    InsertCfrNodes(g, cfr);
    assert g.State() == CfrLoaded(cfr);
    ok := IngestRecords(g, sc, cfr, data);
    if ok {
      Link(g, lk, sim, data);
    }
  }

  /** The pass links the items of an attribute that Step 3 MERGEs under the same label. */
  predicate Covers(sc: Script, lk: Linker)
  {
    exists ru | ru in sc.rules :: ru.name == lk.attr && ru.nodeLabel == lk.nodeLabel
  }

  /** The script runs to the end exactly when every record is ingested without error. */
  lemma BuiltOk(sc: Script, lk: Linker, cfr: CfrDict, sim: Oracle, data: seq<Record>)
    ensures Built(sc, lk, cfr, sim, data).1 <==> AllIngested(sc, cfr, data)
  {
    IngestAllScript(sc, cfr, CfrLoaded(cfr), data);
  }

  /** Once every record is ingested, each incident and each item of the linked attribute is a
      node of the database, so that the MATCH of every Step 4 write succeeds. */
  lemma IngestReady(sc: Script, lk: Linker, cfr: CfrDict, s: GraphState, data: seq<Record>)
    requires Covers(sc, lk)
    requires IngestAll(sc, cfr, s, data).1
    ensures NodesReady(lk, IngestAll(sc, cfr, s, data).0, data)
  {
    var t := IngestAll(sc, cfr, s, data).0;
    var ru :| ru in sc.rules && ru.name == lk.attr && ru.nodeLabel == lk.nodeLabel;
    IngestAllScript(sc, cfr, s, data);
    IngestAllNodes(sc, cfr, s, data);
    forall i | 0 <= i < |data|
      ensures IncidentNode(data[i].filename) in t.nodes
      ensures forall x | x in Items(data[i], lk.attr) :: ValueNode(lk.nodeLabel, x) in t.nodes
    {
      IngestOpsSplit(sc, cfr, data[i]);
      IngestedNodesHas(sc, cfr, data, i);
      forall x | x in Items(data[i], lk.attr) ensures ValueNode(lk.nodeLabel, x) in t.nodes {
        assert ValueNode(lk.nodeLabel, x) in RuleNodes(data[i], sc.rules);
      }
    }
  }

  /** A script that runs to the end leaves Step 3's nodes as they are and adds, on top of Step
      3's relationships, exactly one linking relationship per pair of records `i < j` whose
      similarity reaches the threshold. */
  lemma BuiltLinks(sc: Script, lk: Linker, cfr: CfrDict, sim: Oracle, data: seq<Record>)
    requires Covers(sc, lk)
    requires Built(sc, lk, cfr, sim, data).1
    ensures Built(sc, lk, cfr, sim, data).0.nodes == IngestAll(sc, cfr, CfrLoaded(cfr), data).0.nodes
    ensures Built(sc, lk, cfr, sim, data).0.edges.Keys
         == IngestAll(sc, cfr, CfrLoaded(cfr), data).0.edges.Keys + LinkedPairs(lk, sim, data)
  {
    var s3 := IngestAll(sc, cfr, CfrLoaded(cfr), data).0;
    IngestReady(sc, lk, cfr, CfrLoaded(cfr), data);
    LinkKeepsNodes(lk, sim, s3, data);
    LinkEdgesEffect(lk, sim, s3, data);
  }
}
