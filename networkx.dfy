/** The part of networkx's `DiGraph` that the in-memory knowledge-graph scripts use:
    `add_node`, `add_edge`, `has_node` and iteration over the nodes.

    A node is a string id with a dictionary of string attributes; the graph remembers the
    order in which its nodes were first added, which is the order `graph.nodes(data=True)`
    iterates in. There is at most one edge per ordered pair of nodes, and it carries its own
    attribute dictionary. Adding what is already there is not an error: `add_node` updates
    the node's attributes, `add_edge` updates the edge's, and `add_edge` adds any endpoint
    that is missing with no attributes. */
module DiGraphs {

  type Node = string

  type Attrs = map<string, string>

  datatype Graph = Graph(order: seq<Node>, nodes: map<Node, Attrs>, edges: map<(Node, Node), Attrs>)

  function Empty(): Graph
  {
    Graph([], map[], map[])
  }

  /** The attributes stored under `k`, none if `k` is absent. */
  function AttrsOf<K>(m: map<K, Attrs>, k: K): Attrs
  {
    if k in m then m[k] else map[]
  }

  /** The single-attribute dictionary `relation=rel` the scripts give every edge. */
  function Rel(rel: string): Attrs
  {
    map["relation" := rel]
  }

  /** Every node id occurs once in the insertion order, the order lists exactly the nodes that
      carry attributes, and every edge joins two nodes. */
  ghost predicate Valid(g: Graph)
  {
    (forall i, j | 0 <= i < j < |g.order| :: g.order[i] != g.order[j])
    && (forall n :: n in g.nodes <==> n in g.order)
    && (forall e | e in g.edges :: e.0 in g.nodes && e.1 in g.nodes)
  }

  /** `h` keeps every node and every edge of `g`. */
  ghost predicate Grows(g: Graph, h: Graph)
  {
    g.nodes.Keys <= h.nodes.Keys && g.edges.Keys <= h.edges.Keys
  }

  /** Every edge carries a `relation` attribute taken from `rels`. */
  ghost predicate RelationsIn(g: Graph, rels: set<string>)
  {
    forall e | e in g.edges :: "relation" in g.edges[e] && g.edges[e]["relation"] in rels
  }

  /** The edge from `u` to `v` is there and its `relation` attribute is `rel`. */
  predicate HasRelation(g: Graph, u: Node, v: Node, rel: string)
  {
    (u, v) in g.edges && "relation" in g.edges[(u, v)] && g.edges[(u, v)]["relation"] == rel
  }

  /** `g.add_node(n, **attrs)`. */
  function WithNode(g: Graph, n: Node, attrs: Attrs): (r: Graph)
    ensures Grows(g, r) && r.edges == g.edges
    ensures r.nodes.Keys == g.nodes.Keys + {n}
    ensures r.nodes[n] == AttrsOf(g.nodes, n) + attrs
    ensures forall m | m != n :: AttrsOf(r.nodes, m) == AttrsOf(g.nodes, m)
    ensures Valid(g) ==> Valid(r)
    ensures n in g.nodes ==> r.order == g.order
    ensures n !in g.nodes ==> r.order == g.order + [n]
  {
    AddedValid(g, n, g.nodes[n := AttrsOf(g.nodes, n) + attrs]);
    Graph(if n in g.nodes then g.order else g.order + [n], g.nodes[n := AttrsOf(g.nodes, n) + attrs], g.edges)
  }

  /** Giving the nodes of `g` plus `n` new attributes keeps the graph well formed. */
  lemma AddedValid(g: Graph, n: Node, nodes: map<Node, Attrs>)
    requires nodes.Keys == g.nodes.Keys + {n}
    ensures Valid(g) ==> Valid(Graph(if n in g.nodes then g.order else g.order + [n], nodes, g.edges))
  {
    if Valid(g) && n !in g.nodes {
      assert n !in g.order;
    }
  }

  /** `m` with `n` added without attributes if it is missing. */
  function Touch(m: map<Node, Attrs>, n: Node): (r: map<Node, Attrs>)
    ensures r.Keys == m.Keys + {n}
    ensures forall k | k in m :: r[k] == m[k]
    ensures forall k :: AttrsOf(r, k) == AttrsOf(m, k)
  {
    if n in m then m else m[n := map[]]
  }

  /** `g.add_edge(u, v, **attrs)`. */
  function WithEdge(g: Graph, u: Node, v: Node, attrs: Attrs): (r: Graph)
    ensures Grows(g, r)
    ensures r.nodes.Keys == g.nodes.Keys + {u, v}
    ensures forall m :: AttrsOf(r.nodes, m) == AttrsOf(g.nodes, m)
    ensures r.edges.Keys == g.edges.Keys + {(u, v)}
    ensures r.edges[(u, v)] == AttrsOf(g.edges, (u, v)) + attrs
    ensures forall e | e != (u, v) :: AttrsOf(r.edges, e) == AttrsOf(g.edges, e)
    ensures Valid(g) ==> Valid(r)
  {
    var order1 := if u in g.nodes then g.order else g.order + [u];
    var nodes1 := Touch(g.nodes, u);
    var order := if v in nodes1 then order1 else order1 + [v];
    var h := Graph(order, Touch(nodes1, v), g.edges);
    EdgeValid(g, u, v, h, AttrsOf(g.edges, (u, v)) + attrs);
    Graph(order, h.nodes, g.edges[(u, v) := AttrsOf(g.edges, (u, v)) + attrs])
  }

  /** Touching both endpoints and then setting the edge keeps the graph well formed. */
  lemma EdgeValid(g: Graph, u: Node, v: Node, h: Graph, a: Attrs)
    requires h.edges == g.edges
    requires h.order == (var o := if u in g.nodes then g.order else g.order + [u];
                         if v in Touch(g.nodes, u) then o else o + [v])
    requires h.nodes == Touch(Touch(g.nodes, u), v)
    ensures Valid(g) ==> Valid(Graph(h.order, h.nodes, h.edges[(u, v) := a]))
  {
    if Valid(g) {
      var h1 := Graph(if u in g.nodes then g.order else g.order + [u], Touch(g.nodes, u), g.edges);
      TouchValid(g, u);
      TouchValid(h1, v);
      SetEdgeValid(h, u, v, a);
    }
  }

  /** Setting an edge between two present nodes keeps the graph well formed. */
  lemma SetEdgeValid(h: Graph, u: Node, v: Node, a: Attrs)
    requires Valid(h) && u in h.nodes && v in h.nodes
    ensures Valid(Graph(h.order, h.nodes, h.edges[(u, v) := a]))
  {
  }

  /** Adding a missing endpoint keeps the graph well formed. */
  lemma TouchValid(g: Graph, n: Node)
    ensures var r := Graph(if n in g.nodes then g.order else g.order + [n], Touch(g.nodes, n), g.edges);
      Valid(g) ==> Valid(r) && (forall e | e in g.edges :: e.0 in r.nodes && e.1 in r.nodes)
  {
    var r := Graph(if n in g.nodes then g.order else g.order + [n], Touch(g.nodes, n), g.edges);
    if Valid(g) && n !in g.nodes {
      assert n !in g.order;
    }
  }

  /** Updating a dictionary twice with the same entries is updating it once. */
  lemma UpdateTwice(a: Attrs, b: Attrs)
    ensures (a + b) + b == a + b
  {
  }

  /** Adding a node a second time with the same attributes changes nothing. */
  lemma WithNodeTwice(g: Graph, n: Node, attrs: Attrs)
    ensures WithNode(WithNode(g, n, attrs), n, attrs) == WithNode(g, n, attrs)
  {
    UpdateTwice(AttrsOf(g.nodes, n), attrs);
  }

  /** Adding an edge a second time with the same attributes changes nothing. */
  lemma WithEdgeTwice(g: Graph, u: Node, v: Node, attrs: Attrs)
    ensures WithEdge(WithEdge(g, u, v, attrs), u, v, attrs) == WithEdge(g, u, v, attrs)
  {
    UpdateTwice(AttrsOf(g.edges, (u, v)), attrs);
    WithEdgePresent(WithEdge(g, u, v, attrs), u, v, attrs);
  }

  /** Adding an edge that is already there with attributes it already has changes nothing. */
  lemma WithEdgePresent(g: Graph, u: Node, v: Node, attrs: Attrs)
    requires u in g.nodes && v in g.nodes && (u, v) in g.edges
    requires g.edges[(u, v)] + attrs == g.edges[(u, v)]
    ensures WithEdge(g, u, v, attrs) == g
  {
    assert g.edges[(u, v) := g.edges[(u, v)]] == g.edges;
  }

  /** Adding a node that is already there with attributes it already has changes nothing. */
  lemma WithNodePresent(g: Graph, n: Node, attrs: Attrs)
    requires n in g.nodes && g.nodes[n] + attrs == g.nodes[n]
    ensures WithNode(g, n, attrs) == g
  {
  }

  /** An edge added with a relation from `rels` keeps every relation of the graph in `rels`. */
  lemma WithEdgeRelation(g: Graph, u: Node, v: Node, rel: string, rels: set<string>)
    ensures RelationsIn(g, rels) && rel in rels ==> RelationsIn(WithEdge(g, u, v, Rel(rel)), rels)
  {
  }

  class DiGraph {
    var order: seq<Node>
    var nodes: map<Node, Attrs>
    var edges: map<(Node, Node), Attrs>

    function State(): Graph
      reads this
    {
      Graph(order, nodes, edges)
    }

    /** `nx.DiGraph()`. */
    constructor ()
      ensures State() == Empty()
    {
      order, nodes, edges := [], map[], map[];
    }

    method AddNode(n: Node, attrs: Attrs)
      modifies this
      ensures State() == WithNode(old(State()), n, attrs)
    {
      if n !in nodes {
        order := order + [n];
      }
      nodes := nodes[n := AttrsOf(nodes, n) + attrs];
    }

    method AddEdge(u: Node, v: Node, attrs: Attrs)
      modifies this
      ensures State() == WithEdge(old(State()), u, v, attrs)
    {
      if u !in nodes {
        order, nodes := order + [u], nodes[u := map[]];
      }
      if v !in nodes {
        order, nodes := order + [v], nodes[v := map[]];
      }
      edges := edges[(u, v) := AttrsOf(edges, (u, v)) + attrs];
    }

    /** `graph.has_node(n)`. */
    function HasNode(n: Node): (b: bool)
      reads this
      ensures b <==> n in State().nodes
    {
      n in nodes
    }
  }
}
