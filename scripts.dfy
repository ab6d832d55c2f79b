/** The three scripts end to end: src/knowledge_graph/7_knowledge_graph.py filters the items
    and builds the graph with the relation loop, src/run/7_knowledge_graph.py builds it from
    every item with the relation loop, and src/run/8_inference.py builds it without the
    relation loop and then scans its clause nodes for a keyword match. */
module Scripts {
  import opened Text
  import opened DiGraphs
  import opened CfrGraph
  import opened Incidents
  import opened Relations

  /** The filter of the filtering script: `content_1` to `content_4` are all strings that
      are not blank. */
  predicate Kept(item: Item)
  {
    forall i | 0 <= i < 4 :: Passes(Cells(item.cfr)[i])
  }

  /** `filtered_data`: the kept items, in their order. */
  function Filtered(data: seq<Item>): (kept: seq<Item>)
    ensures |kept| <= |data|
    decreases |data|
  {
    if data == [] then []
    else
      var n := |data| - 1;
      Filtered(data[..n]) + (if Kept(data[n]) then [data[n]] else [])
  }

  /** An item is in `filtered_data` exactly when it is in the data and passes the filter. */
  lemma {:induction false} FilteredIn(data: seq<Item>, x: Item)
    ensures x in Filtered(data) <==> x in data && Kept(x)
    decreases |data|
  {
    if data != [] {
      var n := |data| - 1;
      FilteredIn(data[..n], x);
      assert data == data[..n] + [data[n]];
    }
  }

  /** Filtering twice keeps what filtering once keeps. */
  lemma {:induction false} FilteredTwice(data: seq<Item>)
    ensures Filtered(Filtered(data)) == Filtered(data)
    decreases |data|
  {
    if data != [] {
      var n := |data| - 1;
      var f := Filtered(data[..n]);
      FilteredTwice(data[..n]);
      FilteredKept(data[..n]);
      if Kept(data[n]) {
        var x := data[n];
        assert Filtered(data) == f + [x];
        assert (f + [x])[..|f|] == f;
        assert Filtered(f + [x]) == Filtered(f) + [x];
      } else {
        assert Filtered(data) == f;
      }
    }
  }

  /** Every item of `filtered_data` passes the filter. */
  lemma {:induction false} FilteredKept(data: seq<Item>)
    ensures forall i | 0 <= i < |Filtered(data)| :: Kept(Filtered(data)[i])
    decreases |data|
  {
    if data != [] {
      FilteredKept(data[..|data| - 1]);
    }
  }

  /** The filtering loop; `removed` is `removed_count`. */
  method FilterItems(data: seq<Item>) returns (filtered: seq<Item>, removed: nat)
    ensures filtered == Filtered(data)
    ensures removed + |filtered| == |data|
  {
    filtered, removed := [], 0;
    for i := 0 to |data|
      invariant filtered == Filtered(data[..i])
      invariant removed + |filtered| == i
    {
      assert data[..i + 1][..i] == data[..i];
      var item := data[i];
      if Kept(item) {
        filtered := filtered + [item];
      } else {
        removed := removed + 1;
      }
    }
    assert data[..|data|] == data;
  }

  /** A kept item has exactly four hierarchy levels, the stripped `content_1` to `content_4`,
      so its leaf is `{incident_id}_CFR_Level_4`. */
  lemma KeptLevels(script: Script, idx: nat, item: Item)
    requires Kept(item)
    ensures Levels(script, item.cfr) == Some(Stripped(Cells(item.cfr)))
    ensures Leaf(IncidentId(idx), Levels(script, item.cfr).value) == LevelId(IncidentId(idx), 4)
  {
    CompactAll(script, Cells(item.cfr));
  }

  /** The graph the filtering script leaves: the incident loop over the kept items, which
      never raises, then the relation loop. */
  method BuildFiltering(data: seq<Item>) returns (g: DiGraph, removed: nat)
    ensures removed == |data| - |Filtered(data)|
    ensures IncidentLoop(Empty(), Filtering, Filtered(data)).Some?
    ensures g.State() == Apply(IncidentLoop(Empty(), Filtering, Filtered(data)).value, AllWrites(AttrTable(Filtered(data))))
  {
    var filtered;
    filtered, removed := FilterItems(data);
    g := new DiGraph();
    IncidentLoopRaises(Empty(), Filtering, filtered);
    var ok, table := AddIncidents(g, Filtering, filtered);
    RelateIncidents(g, table);
  }

  /** The graph the plain script leaves, or `ok` false where its incident loop raises. */
  method BuildPlain(data: seq<Item>) returns (g: DiGraph, ok: bool)
    ensures ok == IncidentLoop(Empty(), Plain, data).Some?
    ensures ok ==> g.State() == Apply(IncidentLoop(Empty(), Plain, data).value, AllWrites(AttrTable(data)))
  {
    g := new DiGraph();
    var table;
    ok, table := AddIncidents(g, Plain, data);
    if ok {
      RelateIncidents(g, table);
    }
  }

  /** The graph the inference script builds, or `ok` false where its incident loop raises. */
  method BuildInference(data: seq<Item>) returns (g: DiGraph, ok: bool)
    ensures ok == IncidentLoop(Empty(), Inference, data).Some?
    ensures ok ==> g.State() == IncidentLoop(Empty(), Inference, data).value
  {
    g := new DiGraph();
    var table;
    ok, table := AddIncidents(g, Inference, data);
  }

  /** What a knowledge-graph script that does not raise leaves: a well-formed graph in
      which every item is linked, every prescribed relation edge has its relation, and every
      relation is a structural one or a mapped one. */
  lemma ScriptGraph(script: Script, items: seq<Item>)
    requires IncidentLoop(Empty(), script, items).Some?
    ensures var r := Apply(IncidentLoop(Empty(), script, items).value, AllWrites(AttrTable(items)));
      && Valid(r)
      && RelationsIn(r, Structure + MappedRelations())
      && (forall i | 0 <= i < |items| :: IncidentLinked(r, script, i, items[i]))
      && (forall w | Prescribed(AttrTable(items), w) :: HasRelation(r, w.s, w.t, w.rel))
  {
    var h := IncidentLoop(Empty(), script, items).value;
    var r := Apply(h, AllWrites(AttrTable(items)));
    IncidentLoopLinked(Empty(), script, items);
    AttrTableUnambiguous(items);
    RelationPhase(h, AttrTable(items), Structure);
    forall i | 0 <= i < |items|
      ensures IncidentLinked(r, script, i, items[i])
    {
      IncidentLinkedGrows(h, r, script, i, items[i]);
    }
  }

  /** The filtering script never raises, links every kept item with its four levels, and
      drops every other item. */
  lemma FilteringGraph(data: seq<Item>)
    ensures IncidentLoop(Empty(), Filtering, Filtered(data)).Some?
    ensures forall i | 0 <= i < |Filtered(data)| ::
      Levels(Filtering, Filtered(data)[i].cfr) == Some(Stripped(Cells(Filtered(data)[i].cfr)))
  {
    IncidentLoopRaises(Empty(), Filtering, Filtered(data));
    FilteredKept(data);
    forall i | 0 <= i < |Filtered(data)|
      ensures Levels(Filtering, Filtered(data)[i].cfr) == Some(Stripped(Cells(Filtered(data)[i].cfr)))
    {
      KeptLevels(Filtering, i, Filtered(data)[i]);
    }
  }

  /** The inference script's graph has no relation-loop edges: every relation is structural
      (its items are linked as `Incidents.IncidentLoopLinked` states). */
  lemma InferenceGraph(items: seq<Item>)
    requires IncidentLoop(Empty(), Inference, items).Some?
    ensures Valid(IncidentLoop(Empty(), Inference, items).value)
    ensures RelationsIn(IncidentLoop(Empty(), Inference, items).value, Structure)
  {
    assert Valid(Empty()) && RelationsIn(Empty(), Structure);
  }

  /** `keywords` of the inference script. */
  const Keywords: seq<string> := ["reactor protection system", "automatic actuation"]

  /** The clause the inference script looks for. */
  const Wanted: string := "50.73(a)(2)(iv)(A)"

  /** `all(k in new_incident_text.lower() for k in keywords)`. */
  predicate KeywordsIn(text: string)
  {
    forall k | 0 <= k < |Keywords| :: Contains(Lower(text), Keywords[k])
  }

  /** `.get("label", "")`. */
  function Label(attrs: Attrs): string
  {
    if "label" in attrs then attrs["label"] else ""
  }

  /** A clause node whose label names the wanted clause. */
  predicate Candidate(attrs: Attrs)
  {
    "type" in attrs && attrs["type"] == "CFR_Clause" && Contains(Label(attrs), Wanted)
  }

  /** `matched_clauses` after the scan of the nodes `order`. */
  function Matched(nodes: map<Node, Attrs>, order: seq<Node>, text: string): (m: seq<string>)
    ensures |m| <= |order|
    decreases |order|
  {
    if order == [] then []
    else
      var n := |order| - 1;
      var attrs := AttrsOf(nodes, order[n]);
      Matched(nodes, order[..n], text) + (if Candidate(attrs) && KeywordsIn(text) then [Label(attrs)] else [])
  }

  /** The scan matches nothing unless the text has every keyword, and then it matches the
      label of every clause node naming the wanted clause, and nothing else. */
  lemma {:induction false} MatchedIn(nodes: map<Node, Attrs>, order: seq<Node>, text: string, m: string)
    ensures m in Matched(nodes, order, text) <==>
      KeywordsIn(text) && exists n | n in order :: Candidate(AttrsOf(nodes, n)) && Label(AttrsOf(nodes, n)) == m
    decreases |order|
  {
    if order != [] {
      var n := |order| - 1;
      MatchedIn(nodes, order[..n], text, m);
      assert order == order[..n] + [order[n]];
    }
  }

  /** A text without every keyword matches nothing, whatever the graph. */
  lemma {:induction false} MatchedNone(nodes: map<Node, Attrs>, order: seq<Node>, text: string)
    requires !KeywordsIn(text)
    ensures Matched(nodes, order, text) == []
    decreases |order|
  {
    if order != [] {
      MatchedNone(nodes, order[..|order| - 1], text);
    }
  }

  /** Every matched label names the wanted clause. */
  lemma MatchedWanted(nodes: map<Node, Attrs>, order: seq<Node>, text: string)
    ensures forall m | m in Matched(nodes, order, text) :: Contains(m, Wanted)
  {
    forall m | m in Matched(nodes, order, text)
      ensures Contains(m, Wanted)
    {
      MatchedIn(nodes, order, text, m);
    }
  }

  /** The scan over `graph.nodes(data=True)`, in the order the nodes were added. */
  method MatchedClauses(g: DiGraph, text: string) returns (matched: seq<string>)
    ensures matched == Matched(g.nodes, g.order, text)
  {
    matched := [];
    for i := 0 to |g.order|
      invariant matched == Matched(g.nodes, g.order[..i], text)
    {
      assert g.order[..i + 1][..i] == g.order[..i];
      var attrs := AttrsOf(g.nodes, g.order[i]);
      if "type" in attrs && attrs["type"] == "CFR_Clause" {
        var text0 := Label(attrs);
        if Contains(text0, Wanted) {
          if KeywordsIn(text) {
            matched := matched + [text0];
          }
        }
      }
    }
    assert g.order[..|g.order|] == g.order;
  }
}
