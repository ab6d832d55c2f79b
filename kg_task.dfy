/** `knowledge_graph/8_kg.py`: the incident graph with Task-based similarity links.

    Step 3 reads every attribute and the clause with `.get`, so a record only fails on a
    missing title, event date or facility field. Step 4 pairs the Task items of every two
    records `i < j` and links the incidents with `SIMILAR_TASK` when the Task similarity reaches
    0.8, carrying the Task, Cause, Event and Influence scores and the two tasks. */
module TaskGraph {
  import opened Text
  import opened Records
  import opened PropertyGraph
  import opened IncidentIngest
  import opened Linking
  import opened GraphScript

  /** The attribute table of Step 3: name, node label (the name without its spaces) and
      relationship type. */
  const TaskRules: seq<AttrRule> := [
    AttrRule("Task", "Task", "RELATED_TO_TASK"),
    AttrRule("Event", "Event", "HAS_EVENT"),
    AttrRule("Cause", "Cause", "HAS_CAUSE"),
    AttrRule("Influence", "Influence", "HAS_INFLUENCE"),
    AttrRule("Corrective Actions", "CorrectiveActions", "HAS_CORRECTIVE_ACTIONS")]

  const TaskScript: Script := Script(TaskRules, false, false)

  const TaskLinker: Linker := Linker(
    "Task", "Task", "SIMILAR_TASK", "task_similarity",
    [("cause_similarity", "Cause"), ("event_similarity", "Event"), ("influence_similarity", "Influence")],
    "task1", "task2")

  /** Each node label is the attribute name with its spaces removed (`attribute.replace(' ', '')`). */
  lemma TaskLabels(rules: seq<AttrRule>)
    requires rules == TaskRules
    ensures forall k | 0 <= k < |rules| :: rules[k].nodeLabel == RemoveChar(rules[k].name, ' ')
  {
    forall k | 0 <= k < |rules| ensures rules[k].nodeLabel == RemoveChar(rules[k].name, ' ') {
      if k == 4 {
        CorrectiveActionsLabel(rules[k].name);
      } else {
        SpaceFree(rules[k]);
      }
    }
  }

  lemma SpaceFree(ru: AttrRule)
    requires ' ' !in ru.name && ru.nodeLabel == ru.name
    ensures ru.nodeLabel == RemoveChar(ru.name, ' ')
  {
    RemoveCharAbsent(ru.name, ' ');
  }

  /** A record fails to go in exactly when its title, event date, facility, facility name or
      facility unit is missing; the attributes and the clause are optional. */
  lemma TaskIngestFails(cfr: CfrDict, s: GraphState, r: Record)
    ensures IngestRecord(TaskScript, cfr, r).failed <==> !Complete(r.metadata)
    ensures IngestRecord(TaskScript, cfr, r).failed ==> IngestState(TaskScript, cfr, s, r) == s
  {
    IngestFailure(TaskScript, cfr, s, r);
  }

  /** The properties every `SIMILAR_TASK` relationship carries. */
  lemma TaskLinkKeys()
    ensures PropKeys(TaskLinker)
         == {"task_similarity", "cause_similarity", "event_similarity", "influence_similarity", "task1", "task2"}
  {
    var o := TaskLinker.others;
    assert (set k | 0 <= k < |o| :: o[k].0) == {"cause_similarity", "event_similarity", "influence_similarity"} by {
      assert o[0].0 == "cause_similarity" && o[1].0 == "event_similarity" && o[2].0 == "influence_similarity";
    }
  }

  /** The whole script. */
  method BuildTaskGraph(g: GraphStore, cfr: CfrDict, sim: Oracle, data: seq<Record>) returns (ok: bool)
    modifies g
    ensures (g.State(), ok) == Built(TaskScript, TaskLinker, cfr, sim, data)
  {
    ok := BuildGraph(g, TaskScript, TaskLinker, cfr, sim, data);
  }

  /** The pairs Step 4 links: each incident to each later one whose Task similarity reaches 0.8. */
  lemma TaskPairs(sim: Oracle, data: seq<Record>)
    ensures LinkedPairs(TaskLinker, sim, data)
         == set i, j | 0 <= i < j < |data| && AttributeSimilarity(sim, "Task", data[i], data[j]) >= 0.8
              :: EdgeKey(IncidentNode(data[i].filename), "SIMILAR_TASK", IncidentNode(data[j].filename))
  {
  }

  lemma TaskCovers()
    ensures Covers(TaskScript, TaskLinker)
  {
    assert TaskRules[0] in TaskScript.rules;
  }

  /** When the script runs to the end, Step 4 adds no node and exactly one `SIMILAR_TASK`
      relationship from each incident to each later one whose Task similarity reaches 0.8
      (`TaskPairs`). */
  lemma TaskLinks(cfr: CfrDict, sim: Oracle, data: seq<Record>)
    requires Built(TaskScript, TaskLinker, cfr, sim, data).1
    ensures Built(TaskScript, TaskLinker, cfr, sim, data).0.nodes == IngestAll(TaskScript, cfr, CfrLoaded(cfr), data).0.nodes
    ensures Built(TaskScript, TaskLinker, cfr, sim, data).0.edges.Keys
         == IngestAll(TaskScript, cfr, CfrLoaded(cfr), data).0.edges.Keys + LinkedPairs(TaskLinker, sim, data)
  {
    TaskCovers();
    BuiltLinks(TaskScript, TaskLinker, cfr, sim, data);
  }

  /** What Step 4 SETs on the relationship between records `i < j` (of distinct files) whose Task
      similarity reaches 0.8: the four scores, and as `task1`/`task2` the last task of each
      record, whichever pair of tasks was compared. */
  lemma TaskLastWrite(sim: Oracle, data: seq<Record>, i: nat, j: nat)
    requires DistinctFiles(data) && i < j < |data|
    requires AttributeSimilarity(sim, "Task", data[i], data[j]) >= 0.8
    ensures |Items(data[i], "Task")| > 0 && |Items(data[j], "Task")| > 0
    ensures PropsOf(EdgesWritten(LinkAll(TaskLinker, sim, data)), PairEdge(TaskLinker, data[i], data[j]))
         == LinkProps(TaskLinker, sim, data[i], data[j], LastItem(data[i], "Task"), LastItem(data[j], "Task"))
    ensures LinkProps(TaskLinker, sim, data[i], data[j], LastItem(data[i], "Task"), LastItem(data[j], "Task"))["task1"]
         == Str(LastItem(data[i], "Task"))
    ensures LinkProps(TaskLinker, sim, data[i], data[j], LastItem(data[i], "Task"), LastItem(data[j], "Task"))["task2"]
         == Str(LastItem(data[j], "Task"))
  {
    LinkLastWrite(TaskLinker, sim, data, i, j);
    assert "task1" != "task2" by {
      assert "task1"[4] != "task2"[4];
    }
    assert "task_similarity" != "task1" && "task_similarity" != "task2" by {
      assert |"task_similarity"| != |"task1"|;
    }
    LinkPropsItems(TaskLinker, sim, data[i], data[j], LastItem(data[i], "Task"), LastItem(data[j], "Task"));
  }
}
