/**
  `visualize_lineage_html.py`: the graph is handed to vis.js as a list of
  node records and a list of edge records, with node and edge totals and
  the number of seeds and of models shown above it. The HTML page itself and
  writing it to a file are not modelled.
*/
module VisualizeHtml {
  import opened Manifest
  import opened Graph
  import opened Counting
  import opened Extract
  import opened Summary
  import VisualizeLineage

  /** An entry of `nodes_data`: `id`, `label`, `title`, `color` and `type`. */
  datatype NodeRecord = NodeRecord(id: Id, nodeLabel: string, title: string, color: string, nodeType: string)

  /** An entry of `edges_data`: `from` and `to`. */
  datatype EdgeRecord = EdgeRecord(from: Id, to: Id)

  /** The `color_map` of `generate_html_visualization`. */
  const COLOR_MAP: map<string, string> := map[
    "seed" := "#90EE90",
    "model" := "#87CEEB",
    "source" := "#FFD700"]

  /** `color_map.get(node_type, '#D3D3D3')` */
  function NodeColor(nodeType: string): (color: string)
    ensures color == VisualizeLineage.DEFAULT_COLOR <==> nodeType !in COLOR_MAP
    ensures nodeType in COLOR_MAP ==> color == COLOR_MAP[nodeType]
  {
    if nodeType in COLOR_MAP then COLOR_MAP[nodeType] else VisualizeLineage.DEFAULT_COLOR
  }

  /** Seeds, models and sources are coloured as in the static picture;
      snapshots and tests, which that picture colours, are grey here. */
  lemma ColorsAgainstBasic(nodeType: string)
    ensures nodeType == "snapshot" || nodeType == "test" ==>
      NodeColor(nodeType) == VisualizeLineage.DEFAULT_COLOR != VisualizeLineage.NodeColor(nodeType)
    ensures nodeType != "snapshot" && nodeType != "test" ==>
      NodeColor(nodeType) == VisualizeLineage.NodeColor(nodeType)
  {
  }

  /** The record of vertex `v`: its name as label, `name<br>Type: type` as
      tooltip, and the colour of its type. */
  function NodeRecordOf(g: GraphView, v: Id): NodeRecord {
    var name, nodeType := g.NameOf(v), g.KindOf(v);
    NodeRecord(v, name, name + "<br>Type: " + nodeType, NodeColor(nodeType), nodeType)
  }

  /** `nodes_data`: one record per vertex, in node order. */
  function NodesDataOf(g: GraphView): seq<NodeRecord> {
    seq(|g.order|, i requires 0 <= i < |g.order| => NodeRecordOf(g, g.order[i]))
  }

  /** `edges_data`: one record per edge, in the order of `G.edges()`. */
  function EdgesDataOf(g: GraphView): seq<EdgeRecord> {
    var es := g.EdgeList();
    seq(|es|, k requires 0 <= k < |es| => EdgeRecord(es[k].0, es[k].1))
  }

  /** The ids of a list of node records. */
  function Ids(rs: seq<NodeRecord>): seq<Id> {
    seq(|rs|, i requires 0 <= i < |rs| => rs[i].id)
  }

  /** The loop that fills `nodes_data`. */
  method NodesData(g: GraphView) returns (nodesData: seq<NodeRecord>)
    ensures nodesData == NodesDataOf(g)
  {
    nodesData := [];
    for i := 0 to |g.order|
      invariant nodesData == NodesDataOf(g)[..i]
    {
      var node := g.order[i];
      var nodeType := g.KindOf(node);
      var color := NodeColor(nodeType);
      var name := g.NameOf(node);
      nodesData := nodesData + [NodeRecord(node, name, name + "<br>Type: " + nodeType, color, nodeType)];
    }
  }

  /** The loop that fills `edges_data`. */
  method EdgesData(g: GraphView) returns (edgesData: seq<EdgeRecord>)
    ensures edgesData == EdgesDataOf(g)
  {
    var edges := g.EdgeList();
    edgesData := [];
    for k := 0 to |edges|
      invariant edgesData == EdgesDataOf(g)[..k]
    {
      var edge := edges[k];
      edgesData := edgesData + [EdgeRecord(edge.0, edge.1)];
    }
  }

  /** The node records name every vertex once, in node order, and every
      edge record joins two of them: vis.js gets no edge to a missing node. */
  lemma NodeRecordsCoverEdges(g: GraphView)
    requires g.WellFormed()
    ensures Ids(NodesDataOf(g)) == g.order
    ensures Distinct(Ids(NodesDataOf(g)))
    ensures forall e :: e in EdgesDataOf(g) ==> e.from in Ids(NodesDataOf(g)) && e.to in Ids(NodesDataOf(g))
  {
    var ids, es := Ids(NodesDataOf(g)), g.EdgeList();
    assert ids == g.order;
    EdgeListIsEdgeSet(g);
    forall e | e in EdgesDataOf(g) ensures e.from in g.order && e.to in g.order {
      var k :| 0 <= k < |es| && EdgesDataOf(g)[k] == e;
      assert es[k] in es;
    }
  }

  /** The edge records are the edges of the graph, each once, so the
      "Dependencies" figure `G.number_of_edges()` is their number. */
  lemma EdgeRecordsAreEdges(g: GraphView)
    requires g.WellFormed()
    ensures forall u, w :: EdgeRecord(u, w) in EdgesDataOf(g) <==> (u, w) in g.EdgeSet()
    ensures Distinct(EdgesDataOf(g))
    ensures |EdgesDataOf(g)| == |g.EdgeSet()|
  {
    var es, rs := g.EdgeList(), EdgesDataOf(g);
    EdgeListIsEdgeSet(g);
    forall u, w ensures EdgeRecord(u, w) in rs <==> (u, w) in es {
      if EdgeRecord(u, w) in rs {
        var k :| 0 <= k < |rs| && rs[k] == EdgeRecord(u, w);
        assert es[k] == (u, w);
      }
      if (u, w) in es {
        var k :| 0 <= k < |es| && es[k] == (u, w);
        assert rs[k] == EdgeRecord(u, w);
      }
    }
    assert Distinct(rs) by {
      forall i, j | 0 <= i < j < |rs| ensures rs[i] != rs[j] {
        assert es[i] != es[j];
      }
    }
    DistinctCount(es);
    assert (set e | e in es) == g.EdgeSet();
  }

  /** The record of a source vertex: type `source`, gold, labelled with the
      source's name or else its id. The record of a node that is not also a
      source: its resource type or `unknown`, the colour of that type, and
      its name or else its id. */
  lemma LineageRecordOf(m: Manifest, v: Id)
    ensures var g, nodes, sources := Lineage(m, true), NodesOf(m), SourcesOf(m);
      && (v in sources.entries ==>
            var name, nodeType := sources.entries[v].name.GetOr(v), "source";
            NodeRecordOf(g, v) == NodeRecord(v, name, name + "<br>Type: " + nodeType, "#FFD700", nodeType))
      && (v in nodes.entries && v !in sources.entries ==>
            var name, nodeType := nodes.entries[v].name.GetOr(v), nodes.entries[v].resourceType.GetOr("unknown");
            NodeRecordOf(g, v) == NodeRecord(v, name, name + "<br>Type: " + nodeType, NodeColor(nodeType), nodeType))
  {
    var g, nodes, sources := Lineage(m, true), NodesOf(m), SourcesOf(m);
    LineageAttrsAt(m, true, v);
    if v in sources.entries {
      RecordFromAttrs(g, v, SourceAttrs(v, sources.entries[v], true));
    } else if v in nodes.entries {
      RecordFromAttrs(g, v, NodeAttrs(v, nodes.entries[v], true));
    }
  }

  /** The record of a vertex whose attribute dict sets its name and type. */
  lemma RecordFromAttrs(g: GraphView, v: Id, a: Attrs)
    requires v in g.attrs && g.attrs[v] == a && a.name.Some? && a.kind.Some?
    ensures NodeRecordOf(g, v) ==
      NodeRecord(v, a.name.value, a.name.value + "<br>Type: " + a.kind.value, NodeColor(a.kind.value), a.kind.value)
  {
  }

  /** The page built from a manifest lists each node and source once, and
      draws an edge record exactly for each declared dependency on a node or
      source of the manifest. */
  lemma LineageRecords(m: Manifest)
    ensures var g, nodes, sources := Lineage(m, true), NodesOf(m), SourcesOf(m);
      && (forall v :: v in Ids(NodesDataOf(g)) <==> v in nodes.entries || v in sources.entries)
      && Distinct(Ids(NodesDataOf(g)))
      && (forall p, c :: EdgeRecord(p, c) in EdgesDataOf(g) <==>
            (p in nodes.entries || p in sources.entries) && c in nodes.entries && p in Parents(nodes.entries[c]))
  {
    var g := Lineage(m, true);
    LineageWellFormed(m, true);
    LineageVertices(m, true);
    LineageEdges(m, true);
    NodeRecordsCoverEdges(g);
    EdgeRecordsAreEdges(g);
  }

  /** `G.nodes[v].get('type') == t`: no `unknown` fallback here. */
  predicate HasType(g: GraphView, v: Id, t: string) {
    v in g.attrs && g.attrs[v].kind == Some(t)
  }

  /** `[n for n in us if G.nodes[n].get('type') == t]` */
  function OfType(g: GraphView, us: seq<Id>, t: string): seq<Id> {
    Select(us, v => HasType(g, v, t))
  }

  /** The "Seeds" figure is `CountOfType(g, "seed")`, the "Models" figure
      `CountOfType(g, "model")`. */
  function CountOfType(g: GraphView, t: string): nat {
    |OfType(g, g.order, t)|
  }

  /** The types of `us`, one per vertex, with the summary's `unknown`
      fallback. */
  ghost function KindsAlong(g: GraphView, us: seq<Id>): (ks: seq<string>)
    ensures |ks| == |us|
    ensures forall i :: 0 <= i < |us| ==> ks[i] == g.KindOf(us[i])
  {
    if us == [] then [] else [g.KindOf(us[0])] + KindsAlong(g, us[1..])
  }

  lemma {:induction false} OfTypeCount(g: GraphView, us: seq<Id>, t: string)
    requires t != "unknown"
    ensures |OfType(g, us, t)| == multiset(KindsAlong(g, us))[t]
  {
    if us != [] {
      OfTypeCount(g, us[1..], t);
      assert KindsAlong(g, us) == [g.KindOf(us[0])] + KindsAlong(g, us[1..]);
      assert OfType(g, us, t) == (if HasType(g, us[0], t) then [us[0]] else []) + OfType(g, us[1..], t);
    }
  }

  /** For any type other than `unknown`, the figure on the page is the count
      the printed summary gives for that type. */
  lemma CountMatchesSummary(g: GraphView, t: string)
    requires t != "unknown"
    ensures CountOfType(g, t) == Get(Tally(Kinds(g)), t)
  {
    OfTypeCount(g, g.order, t);
    assert KindsAlong(g, g.order) == Kinds(g);
    GetTally(Kinds(g), t);
  }

  lemma {:induction false} OfTypesApart(g: GraphView, us: seq<Id>, a: string, b: string)
    requires a != b
    ensures |OfType(g, us, a)| + |OfType(g, us, b)| <= |us|
  {
    if us != [] {
      OfTypesApart(g, us[1..], a, b);
      assert OfType(g, us, a) == (if HasType(g, us[0], a) then [us[0]] else []) + OfType(g, us[1..], a);
      assert OfType(g, us, b) == (if HasType(g, us[0], b) then [us[0]] else []) + OfType(g, us[1..], b);
    }
  }

  /** Seeds and models together are never more than the "Total Nodes". */
  lemma SeedsAndModels(g: GraphView)
    ensures CountOfType(g, "seed") + CountOfType(g, "model") <= |g.order|
  {
    OfTypesApart(g, g.order, "seed", "model");
  }

  /** Over a graph that lists each vertex once, the count is the number of
      vertices of that type. */
  lemma CountIsTypedVertices(g: GraphView, t: string)
    requires Distinct(g.order)
    ensures CountOfType(g, t) == |set v | v in g.order && HasType(g, v, t)|
  {
    var sel := OfType(g, g.order, t);
    DistinctCount(sel);
    assert (set v | v in sel) == (set v | v in g.order && HasType(g, v, t));
  }

  /** On a page built from a manifest, the count for any type but `source`
      is the number of manifest nodes of that resource type that are not
      also sources. */
  lemma LineageTypeCount(m: Manifest, t: string)
    requires t != "source"
    ensures var nodes, sources := NodesOf(m), SourcesOf(m);
      CountOfType(Lineage(m, true), t) ==
        |set k | k in nodes.entries && k !in sources.entries && nodes.entries[k].resourceType.GetOr("unknown") == t|
  {
    var g := Lineage(m, true);
    LineageVertices(m, true);
    CountIsTypedVertices(g, t);
    LineageTypedVertices(m, t);
    TypedAreDeclared(g, NodesOf(m).entries, SourcesOf(m).entries, t);
  }

  lemma LineageTypedVertices(m: Manifest, t: string)
    requires t != "source"
    ensures var g, nodes, sources := Lineage(m, true), NodesOf(m), SourcesOf(m);
      forall v :: v in g.order && HasType(g, v, t) <==>
        v in nodes.entries && v !in sources.entries && nodes.entries[v].resourceType.GetOr("unknown") == t
  {
    forall v {
      LineageHasType(m, v, t);
    }
  }

  lemma LineageHasType(m: Manifest, v: Id, t: string)
    requires t != "source"
    ensures var g, nodes, sources := Lineage(m, true), NodesOf(m), SourcesOf(m);
      v in g.order && HasType(g, v, t) <==>
        v in nodes.entries && v !in sources.entries && nodes.entries[v].resourceType.GetOr("unknown") == t
  {
    LineageVertices(m, true);
    LineageAttrsAt(m, true, v);
  }

  lemma TypedAreDeclared(g: GraphView, nodes: map<Id, NodeEntry>, sources: map<Id, SourceEntry>, t: string)
    requires forall v :: v in g.order && HasType(g, v, t) <==>
      v in nodes && v !in sources && nodes[v].resourceType.GetOr("unknown") == t
    ensures (set v | v in g.order && HasType(g, v, t)) ==
      (set k | k in nodes && k !in sources && nodes[k].resourceType.GetOr("unknown") == t)
  {
  }
}
