/**
  The part of a networkx `DiGraph` that the lineage scripts rely on: nodes
  kept in insertion order, one attribute dict per node, and for each node its
  successors in the order the edges were first added.
*/
module Graph {
  import opened Manifest

  /** A node's attribute dict. The scripts only ever set these four keys;
      `None` is a key that was never set. */
  datatype Attrs = Attrs(name: Option<string>, kind: Option<string>, nodeLabel: Option<string>, description: Option<string>)

  /** The empty attribute dict networkx gives a node that an edge creates. */
  const NO_ATTRS := Attrs(None, None, None, None)

  /** Python's `dict.update`: every key set in `b` overwrites the one in `a`. */
  function Update(a: Attrs, b: Attrs): Attrs {
    Attrs(
      if b.name.Some? then b.name else a.name,
      if b.kind.Some? then b.kind else a.kind,
      if b.nodeLabel.Some? then b.nodeLabel else a.nodeLabel,
      if b.description.Some? then b.description else a.description)
  }

  /** The value of a graph: `G.nodes()` order, `G.nodes[n]`, and `G.succ[n]`. */
  datatype GraphView = GraphView(order: seq<Id>, attrs: map<Id, Attrs>, succ: map<Id, seq<Id>>) {

    /** The shape networkx maintains: every node listed once, with an
        attribute dict and a successor list; successor lists hold nodes,
        each at most once. */
    ghost predicate WellFormed() {
      && Distinct(order)
      && (forall v :: v in attrs <==> v in order)
      && (forall v :: v in succ <==> v in order)
      && (forall u :: u in succ ==> Distinct(succ[u]))
      && (forall u, w :: u in succ && w in succ[u] ==> w in attrs)
    }

    /** `G.add_node(id, **a)`: a new id is appended to the node order with an
        empty successor list; an existing id keeps its place and has its
        attribute dict updated with `a`. */
    function WithNode(id: Id, a: Attrs): GraphView {
      if id in attrs then this.(attrs := attrs[id := Update(attrs[id], a)])
      else GraphView(order + [id], attrs[id := a], succ[id := []])
    }

    /** `G.succ[u]`, empty for a node that is not in the graph. */
    function SuccOf(u: Id): seq<Id> {
      if u in succ then succ[u] else []
    }

    /** `G.add_edge(u, v)`: missing endpoints are first added with no
        attributes; `v` is appended to the successors of `u` unless it is
        already there. */
    function WithEdge(u: Id, v: Id): GraphView {
      AddMissing(u).AddMissing(v).WithSuccessor(u, v)
    }

    /** The node `id`, added with no attributes if it is not there yet. */
    function AddMissing(id: Id): GraphView {
      if id in attrs then this else WithNode(id, NO_ATTRS)
    }

    /** `v` appended to the successors of `u` unless already among them. */
    function WithSuccessor(u: Id, v: Id): GraphView {
      var ws := SuccOf(u);
      this.(succ := succ[u := if v in ws then ws else ws + [v]])
    }

    /** `G.edges()` as a set of (parent, child) pairs. */
    function EdgeSet(): set<(Id, Id)> {
      set u, w | u in succ && w in succ[u] :: (u, w)
    }

    /** `G.nodes[v].get('name', v)` */
    function NameOf(v: Id): string {
      if v in attrs then attrs[v].name.GetOr(v) else v
    }

    /** `G.nodes[v].get('type', 'unknown')` */
    function KindOf(v: Id): string {
      if v in attrs then attrs[v].kind.GetOr("unknown") else "unknown"
    }

    /** `G.in_degree(v)`: the number of nodes with an edge into `v`. */
    function InDegree(v: Id): nat {
      |set u | u in succ && v in succ[u]|
    }

    /** `G.out_degree(u)`: the number of edges leaving `u`. */
    function OutDegree(u: Id): nat {
      |SuccOf(u)|
    }

    /** `G.edges()` in networkx's iteration order: nodes in order, and for
        each node its successors in the order they were added. */
    function EdgeList(): seq<(Id, Id)> {
      EdgesFrom(order)
    }

    function EdgesFrom(us: seq<Id>): seq<(Id, Id)> {
      if us == [] then []
      else OutEdges(us[0]) + EdgesFrom(us[1..])
    }

    function OutEdges(u: Id): seq<(Id, Id)> {
      var ws := SuccOf(u);
      seq(|ws|, k requires 0 <= k < |ws| => (u, ws[k]))
    }
  }

  /** The edge list holds exactly the edges of the nodes it walks, each once. */
  lemma {:induction false} EdgesFromMembers(g: GraphView, us: seq<Id>)
    requires g.WellFormed() && Distinct(us)
    ensures forall u, w :: (u, w) in g.EdgesFrom(us) <==> u in us && u in g.succ && w in g.succ[u]
    ensures Distinct(g.EdgesFrom(us))
  {
    if us != [] {
      EdgesFromMembers(g, us[1..]);
      var head, tail := g.OutEdges(us[0]), g.EdgesFrom(us[1..]);
      assert g.EdgesFrom(us) == head + tail;
      forall u, w | (u, w) in head ensures u == us[0] && u in g.succ && w in g.succ[u] {
        var k :| 0 <= k < |head| && head[k] == (u, w);
      }
      forall u, w | u == us[0] && u in g.succ && w in g.succ[u] ensures (u, w) in head {
        var k :| 0 <= k < |g.succ[u]| && g.succ[u][k] == w;
        assert head[k] == (u, w);
      }
      forall i, j | 0 <= i < j < |head + tail| ensures (head + tail)[i] != (head + tail)[j] {
        if j < |head| {
          assert head[i].1 != head[j].1;
        } else if i < |head| {
          assert tail[j - |head|].0 in us[1..];
        }
      }
    }
  }

  /** `G.edges()` lists every edge of the graph exactly once. */
  lemma EdgeListIsEdgeSet(g: GraphView)
    requires g.WellFormed()
    ensures forall e :: e in g.EdgeList() <==> e in g.EdgeSet()
    ensures Distinct(g.EdgeList())
    ensures forall e :: e in g.EdgeList() ==> e.0 in g.attrs && e.1 in g.attrs
  {
    EdgesFromMembers(g, g.order);
    forall e ensures e in g.EdgeList() <==> e in g.EdgeSet() {
      assert e == (e.0, e.1);
    }
  }

  /** Adding a node keeps the graph's shape and adds no edge. */
  lemma WithNodeKeepsEdges(g: GraphView, id: Id, a: Attrs)
    requires g.WellFormed()
    ensures g.WithNode(id, a).WellFormed()
    ensures g.WithNode(id, a).EdgeSet() == g.EdgeSet()
    ensures g.WithNode(id, a).attrs.Keys == g.attrs.Keys + {id}
  {
    var r := g.WithNode(id, a);
    if id !in g.attrs {
      assert id !in g.succ;
      forall e | e in r.EdgeSet() ensures e in g.EdgeSet() {
        assert e.0 in r.succ && e.1 in r.succ[e.0];
      }
    }
  }

  /** Appending `v` to the successors of an existing node `u`, unless it is
      already there, adds exactly the edge `(u, v)`. */
  lemma WithSuccessorAddsEdge(g: GraphView, u: Id, v: Id)
    requires g.WellFormed() && u in g.succ && v in g.attrs
    ensures g.WithSuccessor(u, v).WellFormed()
    ensures g.WithSuccessor(u, v).EdgeSet() == g.EdgeSet() + {(u, v)}
  {
    var r := g.WithSuccessor(u, v);
    var ws := g.succ[u];
    var ws' := r.succ[u];
    assert Distinct(ws') by {
      if v !in ws {
        forall i, j | 0 <= i < j < |ws'| ensures ws'[i] != ws'[j] {
          if j == |ws| {
            assert ws'[i] == ws[i];
          } else {
            assert ws'[i] == ws[i] && ws'[j] == ws[j];
          }
        }
      }
    }
    forall x, w | x in r.succ && w in r.succ[x] ensures w in r.attrs {
      if x == u && w !in ws {
        assert w == v;
      }
    }
    forall e | e in r.EdgeSet() ensures e in g.EdgeSet() + {(u, v)} {
      assert e.0 in r.succ && e.1 in r.succ[e.0];
      if e.0 == u && e.1 !in ws {
        assert e.1 == v;
      }
    }
    assert (u, v) in r.EdgeSet() by {
      assert v in ws';
    }
    forall e | e in g.EdgeSet() ensures e in r.EdgeSet() {
      assert e.0 in g.succ && e.1 in g.succ[e.0];
      assert e.1 in r.succ[e.0];
    }
  }

  /** `G.add_edge(u, v)` keeps the graph's shape and adds exactly the edge
      `(u, v)`, whether or not it or its endpoints were there before. */
  lemma WithEdgeAddsEdge(g: GraphView, u: Id, v: Id)
    requires g.WellFormed()
    ensures g.WithEdge(u, v).WellFormed()
    ensures g.WithEdge(u, v).EdgeSet() == g.EdgeSet() + {(u, v)}
  {
    var g1 := g.AddMissing(u);
    WithNodeKeepsEdges(g, u, NO_ATTRS);
    var g2 := g1.AddMissing(v);
    WithNodeKeepsEdges(g1, v, NO_ATTRS);
    WithSuccessorAddsEdge(g2, u, v);
  }

  /** With both endpoints present, `G.add_edge(u, v)` changes nothing but
      the successors of `u`. */
  lemma WithEdgeBetweenNodes(g: GraphView, u: Id, v: Id)
    requires u in g.attrs && v in g.attrs
    ensures g.WithEdge(u, v) == g.WithSuccessor(u, v)
    ensures g.WithEdge(u, v).order == g.order && g.WithEdge(u, v).attrs == g.attrs
  {
  }

  /** The graph `nx.DiGraph()` starts as. */
  const EMPTY_GRAPH := GraphView([], map[], map[])

  /** A mutable networkx `DiGraph`. */
  class DiGraph {
    var order: seq<Id>
    var attrs: map<Id, Attrs>
    var succ: map<Id, seq<Id>>

    function View(): GraphView
      reads this
    {
      GraphView(order, attrs, succ)
    }

    /** `nx.DiGraph()` */
    constructor ()
      ensures View() == EMPTY_GRAPH
      ensures View().WellFormed()
    {
      order, attrs, succ := [], map[], map[];
    }

    /** `G.add_node(id, **a)` */
    method AddNode(id: Id, a: Attrs)
      modifies this
      ensures View() == old(View()).WithNode(id, a)
    {
      if id in attrs {
        attrs := attrs[id := Update(attrs[id], a)];
      } else {
        order, attrs, succ := order + [id], attrs[id := a], succ[id := []];
      }
    }

    /** `G.add_edge(u, v)` */
    method AddEdge(u: Id, v: Id)
      modifies this
      ensures View() == old(View()).WithEdge(u, v)
    {
      if u !in attrs {
        AddNode(u, NO_ATTRS);
      }
      if v !in attrs {
        AddNode(v, NO_ATTRS);
      }
      var ws := if u in succ then succ[u] else [];
      succ := succ[u := if v in ws then ws else ws + [v]];
    }
  }
}
