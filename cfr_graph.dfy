/** The per-incident part of the in-memory knowledge graph that three scripts build with
    networkx: src/knowledge_graph/7_knowledge_graph.py, src/run/7_knowledge_graph.py and
    src/run/8_inference.py.

    Each incident `Incident_k` gets a chain of CFR hierarchy nodes read from its "cfr" object,
    a `classified_as` edge to the last of them, one node per attribute and one node per value,
    all with ids scoped by the incident id, and a `CFR_Clause` node for each "10 CFR ..."
    citation found in its "Clause" values. */
module CfrGraph {
  import opened Text
  import opened DiGraphs

  /** The three scripts differ in small ways, named where they matter:
      `Filtering` is src/knowledge_graph/7_knowledge_graph.py, `Plain` is
      src/run/7_knowledge_graph.py and `Inference` is src/run/8_inference.py. */
  datatype Script = Filtering | Plain | Inference

  /** A `content_i` entry of an item's "cfr" object as `.get` returns it: a string, or any other
      JSON value with its Python truth value (a missing entry and `null` both read as a falsy
      `None`; `NaN` is a truthy float). */
  datatype Cell = Str(s: string) | Other(truthy: bool)

  /** One element of the JSON list: its "cfr" object and the entries of its "attributes"
      object, in the order of the file. */
  datatype Item = Item(cfr: map<string, Cell>, attributes: seq<(string, seq<string>)>)

  /** `cfr_content.get(key)`. */
  function CellAt(cfr: map<string, Cell>, key: string): Cell
  {
    if key in cfr then cfr[key] else Other(false)
  }

  /** The four entries `add_cfr_hierarchy` reads, `content_1` to `content_4`. */
  function Cells(cfr: map<string, Cell>): seq<Cell>
  {
    [CellAt(cfr, "content_1"), CellAt(cfr, "content_2"), CellAt(cfr, "content_3"), CellAt(cfr, "content_4")]
  }

  /** The entry names a hierarchy level. The filtering script tests `isinstance(c, str) and
      c.strip()`, the other two `c and c.strip()`; on a string both come to a non-blank
      stripped text, since the empty string is falsy. */
  predicate Passes(c: Cell)
  {
    c.Str? && !Blank(c.s)
  }

  /** Only whitespace: what `s.strip()` empties (see `Text.StripEmptyIff`). */
  predicate Blank(s: string)
  {
    forall k | 0 <= k < |s| :: IsSpace(s[k])
  }

  /** `c.strip()` on a truthy value that is not a string raises `AttributeError` in the two
      scripts that do not test the type first. */
  predicate Raises(script: Script, c: Cell)
  {
    script != Filtering && c.Other? && c.truthy
  }

  /** `cfr_nodes` once the first loop of `add_cfr_hierarchy` has read `cells`, or `None` if
      it has raised on one of them. */
  function Compact(script: Script, cells: seq<Cell>): (r: Option<seq<string>>)
    ensures r.Some? ==> |r.value| <= |cells|
    decreases |cells|
  {
    if cells == [] then Some([])
    else
      var c := cells[|cells| - 1];
      match Compact(script, cells[..|cells| - 1])
      case None => None
      case Some(prefix) =>
        if Raises(script, c) then None
        else if Passes(c) then Some(prefix + [Strip(c.s)])
        else Some(prefix)
  }

  /** The hierarchy levels of an item, `None` if reading them raises. */
  function Levels(script: Script, cfr: map<string, Cell>): Option<seq<string>>
  {
    Compact(script, Cells(cfr))
  }

  /** Reading the entries raises exactly when one of them is a truthy non-string, and never in
      the filtering script. */
  lemma {:induction false} CompactRaises(script: Script, cells: seq<Cell>)
    ensures Compact(script, cells).None? <==> exists i | 0 <= i < |cells| :: Raises(script, cells[i])
    ensures script == Filtering ==> Compact(script, cells).Some?
    decreases |cells|
  {
    if cells != [] {
      var init := cells[..|cells| - 1];
      CompactRaises(script, init);
      assert forall i | 0 <= i < |init| :: init[i] == cells[i];
    }
  }

  /** The text of a string entry, nothing for any other. */
  function TextOf(c: Cell): string
  {
    if c.Str? then c.s else ""
  }

  /** The stripped texts of the entries, in order. */
  function Stripped(cells: seq<Cell>): (texts: seq<string>)
    ensures |texts| == |cells|
    decreases |cells|
  {
    if cells == [] then [] else Stripped(cells[..|cells| - 1]) + [Strip(TextOf(cells[|cells| - 1]))]
  }

  /** When every entry names a level, the hierarchy has one level per entry, in order: the
      stripped texts of `content_1` to `content_4`. */
  lemma {:induction false} CompactAll(script: Script, cells: seq<Cell>)
    requires forall i | 0 <= i < |cells| :: Passes(cells[i])
    ensures Compact(script, cells) == Some(Stripped(cells))
    decreases |cells|
  {
    if cells != [] {
      var init := cells[..|cells| - 1];
      assert forall i | 0 <= i < |init| :: init[i] == cells[i];
      CompactAll(script, init);
      CompactAllStep(script, cells);
    }
  }

  /** The step of `CompactAll`: one more entry that names a level adds its stripped text. */
  lemma CompactAllStep(script: Script, cells: seq<Cell>)
    requires cells != [] && Passes(cells[|cells| - 1])
    requires Compact(script, cells[..|cells| - 1]) == Some(Stripped(cells[..|cells| - 1]))
    ensures Compact(script, cells) == Some(Stripped(cells))
  {
  }

  /** The hierarchy is empty, with nothing raised, exactly when no entry names a level and none
      raises. */
  lemma {:induction false} CompactEmpty(script: Script, cells: seq<Cell>)
    ensures Compact(script, cells) == Some([])
        <==> forall i | 0 <= i < |cells| :: !Passes(cells[i]) && !Raises(script, cells[i])
    decreases |cells|
  {
    if cells != [] {
      var init, c := cells[..|cells| - 1], cells[|cells| - 1];
      CompactEmpty(script, init);
      assert forall i | 0 <= i < |init| :: init[i] == cells[i];
      match Compact(script, init)
      case None =>
      case Some(prefix) =>
        if !Raises(script, c) && Passes(c) {
          assert |prefix + [Strip(c.s)]| > 0;
        }
    }
  }

  /** `f"{base_id}_CFR_Level_{k}"`. */
  function LevelId(base: Node, k: nat): Node
  {
    base + "_CFR_Level_" + NatToString(k)
  }

  function LevelAttrs(text: string): Attrs
  {
    map["label" := text, "type" := "CFR"]
  }

  /** One pass of the second loop of `add_cfr_hierarchy`: the `CFR` node of level `k`, joined
      from level `k - 1` by a `has_subcategory` edge unless it is the first. */
  function AddLevel(g: Graph, base: Node, k: nat, text: string): (r: Graph)
    ensures Grows(g, r)
    ensures Valid(g) ==> Valid(r)
    ensures RelationsIn(g, Structure) ==> RelationsIn(r, Structure)
  {
    var h := WithNode(g, LevelId(base, k), LevelAttrs(text));
    if k > 1 then
      WithEdgeRelation(h, LevelId(base, k - 1), LevelId(base, k), "has_subcategory", Structure);
      WithEdge(h, LevelId(base, k - 1), LevelId(base, k), Rel("has_subcategory"))
    else h
  }

  /** The second loop of `add_cfr_hierarchy`: one `CFR` node per level, each after the first
      joined to the one before it by a `has_subcategory` edge. */
  function Hierarchy(g: Graph, base: Node, levels: seq<string>): (r: Graph)
    ensures Grows(g, r)
    ensures Valid(g) ==> Valid(r)
    ensures RelationsIn(g, Structure) ==> RelationsIn(r, Structure)
    decreases |levels|
  {
    if levels == [] then g
    else AddLevel(Hierarchy(g, base, levels[..|levels| - 1]), base, |levels|, levels[|levels| - 1])
  }

  /** `n` is none of the level ids `{base}_CFR_Level_1` to `{base}_CFR_Level_count`. */
  predicate NotLevel(base: Node, n: Node, count: nat)
  {
    forall k | 1 <= k <= count :: n != LevelId(base, k)
  }

  /** A pass writes the attributes of its own level and of no other node. */
  lemma AddLevelNodes(g: Graph, base: Node, k: nat, text: string)
    ensures var r := AddLevel(g, base, k, text);
      LevelId(base, k) in r.nodes
      && r.nodes[LevelId(base, k)] == AttrsOf(g.nodes, LevelId(base, k)) + LevelAttrs(text)
      && forall n | n != LevelId(base, k) :: AttrsOf(r.nodes, n) == AttrsOf(g.nodes, n)
  {
  }

  /** A pass past the first writes the `has_subcategory` edge from the level before, and no
      other edge. */
  lemma AddLevelEdges(g: Graph, base: Node, k: nat, text: string)
    ensures var r := AddLevel(g, base, k, text);
      (k > 1 ==> HasRelation(r, LevelId(base, k - 1), LevelId(base, k), "has_subcategory"))
      && forall e | k <= 1 || e != (LevelId(base, k - 1), LevelId(base, k)) :: AttrsOf(r.edges, e) == AttrsOf(g.edges, e)
  {
  }

  /** `add_cfr_hierarchy` gives level `k` the label of the `k`-th level and the type `CFR`,
      and leaves every other node as it was. */
  lemma {:induction false} HierarchyNodes(g: Graph, base: Node, levels: seq<string>)
    ensures var r := Hierarchy(g, base, levels);
      (forall k | 1 <= k <= |levels| ::
         LevelId(base, k) in r.nodes && r.nodes[LevelId(base, k)] == AttrsOf(g.nodes, LevelId(base, k)) + LevelAttrs(levels[k - 1]))
      && (forall n | NotLevel(base, n, |levels|) :: AttrsOf(r.nodes, n) == AttrsOf(g.nodes, n))
    decreases |levels|
  {
    if levels != [] {
      var k := |levels|;
      var init := levels[..k - 1];
      HierarchyNodes(g, base, init);
      var prev := Hierarchy(g, base, init);
      AddLevelNodes(prev, base, k, levels[k - 1]);
      LevelBelow(base, k);
      assert forall j | 0 <= j < k - 1 :: init[j] == levels[j];
      NodesStep(g, prev, Hierarchy(g, base, levels), base, levels);
    }
  }

  /** The inductive step of `HierarchyNodes`, stated apart from how the graphs are built. */
  lemma NodesStep(g: Graph, prev: Graph, r: Graph, base: Node, levels: seq<string>)
    requires levels != []
    requires var k := |levels|;
      (forall j | 1 <= j < k :: LevelId(base, j) in prev.nodes
         && prev.nodes[LevelId(base, j)] == AttrsOf(g.nodes, LevelId(base, j)) + LevelAttrs(levels[j - 1]))
      && (forall n | NotLevel(base, n, k - 1) :: AttrsOf(prev.nodes, n) == AttrsOf(g.nodes, n))
      && (forall j | 1 <= j < k :: LevelId(base, j) != LevelId(base, k))
      && prev.nodes.Keys <= r.nodes.Keys
      && LevelId(base, k) in r.nodes
      && r.nodes[LevelId(base, k)] == AttrsOf(prev.nodes, LevelId(base, k)) + LevelAttrs(levels[k - 1])
      && (forall n | n != LevelId(base, k) :: AttrsOf(r.nodes, n) == AttrsOf(prev.nodes, n))
    ensures
      (forall k | 1 <= k <= |levels| ::
         LevelId(base, k) in r.nodes && r.nodes[LevelId(base, k)] == AttrsOf(g.nodes, LevelId(base, k)) + LevelAttrs(levels[k - 1]))
      && (forall n | NotLevel(base, n, |levels|) :: AttrsOf(r.nodes, n) == AttrsOf(g.nodes, n))
  {
    var k := |levels|;
    assert NotLevel(base, LevelId(base, k), k - 1);
    assert AttrsOf(prev.nodes, LevelId(base, k)) == AttrsOf(g.nodes, LevelId(base, k));
    forall j | 1 <= j < k
      ensures AttrsOf(r.nodes, LevelId(base, j)) == AttrsOf(prev.nodes, LevelId(base, j))
    {
    }
    forall n | NotLevel(base, n, k)
      ensures AttrsOf(r.nodes, n) == AttrsOf(g.nodes, n)
    {
      assert n != LevelId(base, k);
      assert NotLevel(base, n, k - 1);
    }
  }

  /** Each level after the first is joined to the one before it by a `has_subcategory` edge. */
  lemma {:induction false} HierarchyChain(g: Graph, base: Node, levels: seq<string>)
    ensures var r := Hierarchy(g, base, levels);
      forall k | 1 <= k < |levels| :: HasRelation(r, LevelId(base, k), LevelId(base, k + 1), "has_subcategory")
    decreases |levels|
  {
    if levels != [] {
      var k := |levels|;
      var init := levels[..k - 1];
      HierarchyChain(g, base, init);
      var prev := Hierarchy(g, base, init);
      AddLevelEdges(prev, base, k, levels[k - 1]);
      LevelBelow(base, k - 1);
      ChainStep(prev, Hierarchy(g, base, levels), base, k);
    }
  }

  /** The inductive step of `HierarchyChain`, stated apart from how the graphs are built. */
  lemma ChainStep(prev: Graph, r: Graph, base: Node, k: nat)
    requires k >= 1
    requires forall j | 1 <= j < k - 1 :: HasRelation(prev, LevelId(base, j), LevelId(base, j + 1), "has_subcategory")
    requires forall j | 1 <= j < k - 1 :: LevelId(base, j) != LevelId(base, k - 1)
    requires k > 1 ==> HasRelation(r, LevelId(base, k - 1), LevelId(base, k), "has_subcategory")
    requires forall e | k <= 1 || e != (LevelId(base, k - 1), LevelId(base, k)) :: AttrsOf(r.edges, e) == AttrsOf(prev.edges, e)
    ensures forall j | 1 <= j < k :: HasRelation(r, LevelId(base, j), LevelId(base, j + 1), "has_subcategory")
  {
    forall j | 1 <= j < k - 1
      ensures HasRelation(r, LevelId(base, j), LevelId(base, j + 1), "has_subcategory")
    {
      assert AttrsOf(r.edges, (LevelId(base, j), LevelId(base, j + 1))) == AttrsOf(prev.edges, (LevelId(base, j), LevelId(base, j + 1)));
    }
  }

  /** The relations the incident construction gives its edges. */
  const Structure: set<string> := {"has_subcategory", "classified_as", "has_attribute", "describes", "conforms_to", "specifies"}

  /** In a digit string followed by `_`, that `_` is the first one. */
  lemma FirstUnderscore(a: string, x: string)
    requires AllDigits(a)
    ensures IndexFrom(a + "_" + x, "_", 0) == Some(|a|)
  {
    var s := a + "_" + x;
    assert OccursAt(s, "_", |a|) by {
      assert s[|a|..|a| + 1] == "_";
    }
    forall k | 0 <= k < |a| ensures !OccursAt(s, "_", k) {
      assert s[k..k + 1] == [a[k]];
    }
  }

  /** In `_` followed by a digit string, that `_` is the last one. */
  lemma LastUnderscore(x: string, a: string)
    requires AllDigits(a)
    ensures LastIndexOf(x + "_" + a, '_') == Some(|x|)
  {
    var s := x + "_" + a;
    DigitsAfter(s, x, a);
    LastIndexOfIs(s, '_', |x|);
  }

  /** Only digits follow the `_` in front of a digit string. */
  lemma DigitsAfter(s: string, x: string, a: string)
    requires s == x + "_" + a && AllDigits(a)
    ensures |x| < |s| && s[|x|] == '_' && forall k | |x| < k < |s| :: s[k] != '_'
  {
    forall k | |x| < k < |s| ensures s[k] != '_' {
      assert s[k] == a[k - |x| - 1];
    }
  }

  /** Two digit strings each followed by `_` can only start two equal texts if they are equal. */
  lemma DigitsPrefix(a: string, b: string, x: string, y: string)
    requires AllDigits(a) && AllDigits(b) && a + "_" + x == b + "_" + y
    ensures a == b && x == y
  {
    var s := a + "_" + x;
    FirstUnderscore(a, x);
    FirstUnderscore(b, y);
    assert a == s[..|a|] && b == s[..|b|];
    assert x == s[|a| + 1..] && y == s[|b| + 1..];
  }

  /** `_` followed by a digit string can only end two equal texts if the digits are equal. */
  lemma DigitsSuffix(x: string, y: string, a: string, b: string)
    requires AllDigits(a) && AllDigits(b) && x + "_" + a == y + "_" + b
    ensures x == y && a == b
  {
    var s := x + "_" + a;
    LastUnderscore(x, a);
    LastUnderscore(y, b);
    assert x == s[..|x|] && y == s[..|y|];
    assert a == s[|x| + 1..] && b == s[|y| + 1..];
  }

  /** Distinct hierarchy levels of one base have distinct node ids. */
  lemma LevelIdInjective(base: Node, k: nat, m: nat)
    ensures LevelId(base, k) == LevelId(base, m) ==> k == m
  {
    if LevelId(base, k) == LevelId(base, m) {
      LevelIdsEqual(base, k, m);
    }
  }

  /** Level `k` differs from every level below it. */
  lemma LevelBelow(base: Node, k: nat)
    ensures forall j | 1 <= j < k :: LevelId(base, j) != LevelId(base, k)
  {
    forall j | 1 <= j < k ensures LevelId(base, j) != LevelId(base, k) {
      LevelIdInjective(base, j, k);
    }
  }

  lemma LevelIdsEqual(base: Node, k: nat, m: nat)
    requires LevelId(base, k) == LevelId(base, m)
    ensures k == m
  {
    var p := base + "_CFR_Level_";
    assert NatToString(k) == LevelId(base, k)[|p|..];
    assert NatToString(m) == LevelId(base, m)[|p|..];
    NatToStringInjective(k, m);
  }

  /** Reading stops at the first entry that raises: once a prefix of the entries raises, so do
      all of them. */
  lemma {:induction false} CompactStops(script: Script, cells: seq<Cell>, i: nat)
    requires i <= |cells| && Compact(script, cells[..i]).None?
    ensures Compact(script, cells).None?
    decreases |cells|
  {
    if i < |cells| {
      var init := cells[..|cells| - 1];
      assert init[..i] == cells[..i];
      CompactStops(script, init, i);
    } else {
      assert cells[..i] == cells;
    }
  }

  /** The class `[0-9.\(\)a-zA-Z/]` of the clause pattern. */
  predicate ClauseChar(c: char)
  {
    IsDigit(c) || IsAsciiLetter(c) || c == '.' || c == '(' || c == ')' || c == '/'
  }

  const CfrMark: string := "10 CFR "

  /** The pattern `10 CFR [0-9.\(\)a-zA-Z/]+` matches at `k`. */
  predicate MatchesAt(s: string, k: nat)
  {
    k + |CfrMark| < |s| && s[k..k + |CfrMark|] == CfrMark && ClauseChar(s[k + |CfrMark|])
  }

  /** The end of the longest run of class characters starting at `i` (the `+` is greedy). */
  function RunEnd(s: string, i: nat): (j: nat)
    requires i <= |s|
    ensures i <= j <= |s|
    ensures forall m | i <= m < j :: ClauseChar(s[m])
    ensures j == |s| || !ClauseChar(s[j])
    decreases |s| - i
  {
    if i < |s| && ClauseChar(s[i]) then RunEnd(s, i + 1) else i
  }

  /** The leftmost position at or after `from` where the pattern matches. */
  function FirstMatch(s: string, from: nat): (r: Option<nat>)
    ensures r.Some? ==> from <= r.value && MatchesAt(s, r.value)
    ensures r.Some? ==> forall k | from <= k < r.value :: !MatchesAt(s, k)
    ensures r.None? ==> forall k | from <= k :: !MatchesAt(s, k)
    decreases |s| - from
  {
    if from + |CfrMark| >= |s| then None
    else if MatchesAt(s, from) then Some(from)
    else FirstMatch(s, from + 1)
  }

  /** `re.search(r"(10 CFR [0-9.\(\)a-zA-Z/]+)", val)` followed by `match.group(1).strip()`. */
  function ClauseMatch(val: string): Option<string>
  {
    match FirstMatch(val, 0)
    case None => None
    case Some(k) => Some(Strip(val[k..RunEnd(val, k + |CfrMark|)]))
  }

  /** A citation is found exactly when the pattern matches somewhere. */
  lemma ClauseFound(val: string)
    ensures ClauseMatch(val).Some? <==> exists k :: MatchesAt(val, k)
  {
    if FirstMatch(val, 0).Some? {
      assert MatchesAt(val, FirstMatch(val, 0).value);
    }
  }

  /** The citation found is the leftmost match, "10 CFR " followed by the longest run of class
      characters, exactly as it stands in the value (the `strip()` removes nothing). */
  lemma ClauseMatchShape(val: string) returns (k: nat, c: string)
    requires ClauseMatch(val).Some?
    ensures ClauseMatch(val) == Some(c)
    ensures forall m | 0 <= m < k :: !MatchesAt(val, m)
    ensures k + |c| <= |val| && c == val[k..k + |c|]
    ensures |c| > |CfrMark| && c[..|CfrMark|] == CfrMark
    ensures forall m | |CfrMark| <= m < |c| :: ClauseChar(c[m])
    ensures k + |c| == |val| || !ClauseChar(val[k + |c|])
  {
    var j;
    k, j := ClauseAt(val);
    c := val[k..j];
    RunSlice(val, k, j, c);
  }

  /** The citation found is the run that starts at the leftmost match. */
  lemma ClauseAt(val: string) returns (k: nat, j: nat)
    requires ClauseMatch(val).Some?
    ensures MatchesAt(val, k) && forall m | 0 <= m < k :: !MatchesAt(val, m)
    ensures j == RunEnd(val, k + |CfrMark|) && j > k + |CfrMark|
    ensures ClauseMatch(val) == Some(val[k..j])
  {
    k := FirstMatch(val, 0).value;
    j := RunEnd(val, k + |CfrMark|);
    RunKept(val, k, j);
  }

  /** The slice from a match to the end of its run is the mark followed by class characters. */
  lemma RunSlice(val: string, k: nat, j: nat, c: string)
    requires k + |CfrMark| < j <= |val| && val[k..k + |CfrMark|] == CfrMark && c == val[k..j]
    requires forall m | k + |CfrMark| <= m < j :: ClauseChar(val[m])
    ensures |c| == j - k && c[..|CfrMark|] == CfrMark
    ensures forall m | |CfrMark| <= m < |c| :: ClauseChar(c[m])
  {
    assert c[..|CfrMark|] == val[k..k + |CfrMark|];
  }

  /** The run after a match neither starts nor ends with whitespace, so `strip()` keeps it. */
  lemma RunKept(val: string, k: nat, j: nat)
    requires MatchesAt(val, k) && j == RunEnd(val, k + |CfrMark|)
    ensures j > k + |CfrMark| && Strip(val[k..j]) == val[k..j]
  {
    var c := val[k..j];
    assert c[0] == val[k..k + |CfrMark|][0] == CfrMark[0] == '1';
    assert c[|c| - 1] == val[j - 1];
    StripKeeps(c);
  }
}
