/** `knowledge_graph/8_kg_HSI.py`: the incident graph with HSI-Issue-based similarity links.

    Step 3 indexes the Task list and the clause with `[...]`, so a record without a "Task"
    attribute or without a clause raises `KeyError` (after its Incident MERGE, which the
    rollback undoes) and ends the script. Step 4 pairs the HSI Issues of every two records
    `i < j` and links the incidents with `SIMILAR_HSI` when their HSI-Issue similarity reaches
    0.8. */
module HsiGraph {
  import opened Text
  import opened Records
  import opened PropertyGraph
  import opened IncidentIngest
  import opened Linking
  import opened GraphScript

  /** The attribute table of Step 3, in the order of the script. */
  const HsiRules: seq<AttrRule> := [
    AttrRule("Task", "Task", "RELATED_TO_TASK"),
    AttrRule("HSI Issues", "HSIIssue", "HAS_HSI_ISSUE"),
    AttrRule("Event", "Event", "HAS_EVENT"),
    AttrRule("Cause", "Cause", "HAS_CAUSE"),
    AttrRule("Influence", "Influence", "HAS_INFLUENCE"),
    AttrRule("Corrective Actions", "CorrectiveActions", "HAS_CORRECTIVE_ACTIONS")]

  const HsiScript: Script := Script(HsiRules, true, true)

  const HsiLinker: Linker := Linker("HSI Issues", "HSIIssue", "SIMILAR_HSI", "hsi_similarity", [], "hsi1", "hsi2")

  /** `HAS_{attribute.upper().replace(" ", "_")}` */
  function DerivedRel(name: string): string
  {
    "HAS_" + ReplaceChar(Upper(name), ' ', '_')
  }

  lemma DerivedRule(ru: AttrRule)
    requires ru.rel == DerivedRel(ru.name)
    requires ' ' !in ru.name && ru.nodeLabel == ru.name
    ensures ru.nodeLabel == RemoveChar(ru.name, ' ') && ru.rel == DerivedRel(ru.name)
  {
    RemoveCharAbsent(ru.name, ' ');
  }

  lemma CorrectiveActionsRel(s: string)
    requires s == "Corrective Actions"
    ensures DerivedRel(s) == "HAS_CORRECTIVE_ACTIONS"
  {
  }

  /** From the third rule on (Event, Cause, Influence, Corrective Actions), each label is the
      attribute name without its spaces and each relationship type is `HAS_` and the upper-cased
      name with its spaces turned to `_`. */
  lemma HsiDerivedRules(rules: seq<AttrRule>)
    requires rules == HsiRules
    ensures forall k | 2 <= k < |rules| ::
              rules[k].nodeLabel == RemoveChar(rules[k].name, ' ') && rules[k].rel == DerivedRel(rules[k].name)
  {
    forall k | 2 <= k < |rules|
      ensures rules[k].nodeLabel == RemoveChar(rules[k].name, ' ')
      ensures rules[k].rel == DerivedRel(rules[k].name)
    {
      if k == 5 {
        CorrectiveActionsLabel(rules[k].name);
        CorrectiveActionsRel(rules[k].name);
      } else {
        DerivedRule(rules[k]);
      }
    }
  }

  /** A record fails to go in exactly when its title, event date, facility, facility name or
      facility unit, its "Task" attribute or its clause is missing. */
  lemma HsiIngestFails(cfr: CfrDict, s: GraphState, r: Record)
    ensures IngestRecord(HsiScript, cfr, r).failed
        <==> !Complete(r.metadata) || "Task" !in r.attributes || r.metadata.clause.None?
    ensures IngestRecord(HsiScript, cfr, r).failed ==> IngestState(HsiScript, cfr, s, r) == s
  {
    IngestFailure(HsiScript, cfr, s, r);
  }

  /** The whole script. */
  method BuildHsiGraph(g: GraphStore, cfr: CfrDict, sim: Oracle, data: seq<Record>) returns (ok: bool)
    modifies g
    ensures (g.State(), ok) == Built(HsiScript, HsiLinker, cfr, sim, data)
  {
    ok := BuildGraph(g, HsiScript, HsiLinker, cfr, sim, data);
  }

  /** The pairs Step 4 links: each incident to each later one whose HSI-Issue similarity
      reaches 0.8. */
  lemma HsiPairs(sim: Oracle, data: seq<Record>)
    ensures LinkedPairs(HsiLinker, sim, data)
         == set i, j | 0 <= i < j < |data| && AttributeSimilarity(sim, "HSI Issues", data[i], data[j]) >= 0.8
              :: EdgeKey(IncidentNode(data[i].filename), "SIMILAR_HSI", IncidentNode(data[j].filename))
  {
  }

  lemma HsiCovers()
    ensures Covers(HsiScript, HsiLinker)
  {
    assert HsiRules[1] in HsiScript.rules;
  }

  /** When the script runs to the end, Step 4 adds no node and exactly one `SIMILAR_HSI`
      relationship from each incident to each later one whose HSI-Issue similarity reaches 0.8
      (`HsiPairs`). */
  lemma HsiLinks(cfr: CfrDict, sim: Oracle, data: seq<Record>)
    requires Built(HsiScript, HsiLinker, cfr, sim, data).1
    ensures Built(HsiScript, HsiLinker, cfr, sim, data).0.nodes == IngestAll(HsiScript, cfr, CfrLoaded(cfr), data).0.nodes
    ensures Built(HsiScript, HsiLinker, cfr, sim, data).0.edges.Keys
         == IngestAll(HsiScript, cfr, CfrLoaded(cfr), data).0.edges.Keys + LinkedPairs(HsiLinker, sim, data)
  {
    HsiCovers();
    BuiltLinks(HsiScript, HsiLinker, cfr, sim, data);
  }

  /** What Step 4 SETs on the relationship between records `i < j` (of distinct files) whose
      HSI-Issue similarity reaches 0.8: the score, and as `hsi1`/`hsi2` the last HSI Issue of
      each record, whichever pair of issues was compared. */
  lemma HsiLastWrite(sim: Oracle, data: seq<Record>, i: nat, j: nat)
    requires DistinctFiles(data) && i < j < |data|
    requires AttributeSimilarity(sim, "HSI Issues", data[i], data[j]) >= 0.8
    ensures |Items(data[i], "HSI Issues")| > 0 && |Items(data[j], "HSI Issues")| > 0
    ensures PropsOf(EdgesWritten(LinkAll(HsiLinker, sim, data)), PairEdge(HsiLinker, data[i], data[j]))
         == LinkProps(HsiLinker, sim, data[i], data[j], LastItem(data[i], "HSI Issues"), LastItem(data[j], "HSI Issues"))
    ensures LinkProps(HsiLinker, sim, data[i], data[j], LastItem(data[i], "HSI Issues"), LastItem(data[j], "HSI Issues"))["hsi1"]
         == Str(LastItem(data[i], "HSI Issues"))
    ensures LinkProps(HsiLinker, sim, data[i], data[j], LastItem(data[i], "HSI Issues"), LastItem(data[j], "HSI Issues"))["hsi2"]
         == Str(LastItem(data[j], "HSI Issues"))
  {
    LinkLastWrite(HsiLinker, sim, data, i, j);
    assert "hsi1" != "hsi2" by {
      assert "hsi1"[3] != "hsi2"[3];
    }
    assert "hsi_similarity" != "hsi1" && "hsi_similarity" != "hsi2" by {
      assert |"hsi_similarity"| != |"hsi1"|;
    }
    LinkPropsItems(HsiLinker, sim, data[i], data[j], LastItem(data[i], "HSI Issues"), LastItem(data[j], "HSI Issues"));
  }
}
