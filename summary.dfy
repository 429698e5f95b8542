/**
  `print_lineage_summary`: nodes counted per type, the root nodes (no
  incoming edge) and the leaf nodes (no outgoing edge). The printing itself
  is not modelled.
*/
module Summary {
  import opened Manifest
  import opened Graph
  import opened Counting
  import opened Extract

  /** The type of each vertex, in node order: `G.nodes[node].get('type', 'unknown')`. */
  function Kinds(g: GraphView): (ks: seq<string>)
    ensures |ks| == |g.order|
    ensures forall i :: 0 <= i < |g.order| ==> ks[i] == g.KindOf(g.order[i])
  {
    seq(|g.order|, i requires 0 <= i < |g.order| => g.KindOf(g.order[i]))
  }

  /** The `type_counts` loop: `type_counts[node_type] = type_counts.get(node_type, 0) + 1`
      for each vertex, in node order. */
  method TypeCounts(g: GraphView) returns (typeCounts: map<string, nat>)
    ensures typeCounts == Tally(Kinds(g))
  {
    typeCounts := map[];
    for i := 0 to |g.order|
      invariant typeCounts == Tally(Kinds(g)[..i])
    {
      var nodeType := g.KindOf(g.order[i]);
      KindStep(g, i);
      typeCounts := typeCounts[nodeType := (if nodeType in typeCounts then typeCounts[nodeType] else 0) + 1];
    }
    assert Kinds(g)[..|g.order|] == Kinds(g);
  }

  /** The loop counts one more vertex of the `i`-th vertex's type. */
  lemma KindStep(g: GraphView, i: nat)
    requires i < |g.order|
    ensures Tally(Kinds(g)[..i + 1]) == Bump(Tally(Kinds(g)[..i]), g.KindOf(g.order[i]))
  {
    var ks := Kinds(g);
    assert ks[..i + 1] == ks[..i] + [ks[i]];
    TallySnoc(ks[..i], ks[i]);
  }

  /** Listed once per type, in any order (the summary sorts them), the counts
      per type add up to the number of nodes. */
  lemma TypeCountsTotal(g: GraphView, types: seq<string>)
    requires Distinct(types) && forall t :: t in Tally(Kinds(g)) ==> t in types
    ensures SumOver(Tally(Kinds(g)), types) == |g.order|
  {
    TallyTotal(Kinds(g), types);
  }

  /** The ids of `us` that satisfy `keep`, in their order: a list comprehension. */
  function Select(us: seq<Id>, keep: Id -> bool): (r: seq<Id>)
    ensures forall v :: v in r <==> v in us && keep(v)
    ensures Distinct(us) ==> Distinct(r)
  {
    if us == [] then []
    else (if keep(us[0]) then [us[0]] else []) + Select(us[1..], keep)
  }

  /** `[node for node in G.nodes() if G.in_degree(node) == 0]` */
  function Roots(g: GraphView): (rs: seq<Id>)
    ensures forall v :: v in rs <==> v in g.order && g.InDegree(v) == 0
  {
    Select(g.order, v => g.InDegree(v) == 0)
  }

  /** `[node for node in G.nodes() if G.out_degree(node) == 0]` */
  function Leaves(g: GraphView): (ls: seq<Id>)
    ensures forall v :: v in ls <==> v in g.order && g.OutDegree(v) == 0
  {
    Select(g.order, v => g.OutDegree(v) == 0)
  }

  /** A vertex of the lineage graph is a root exactly when it is not a
      manifest node or none of its declared parents is a vertex: sources
      and seeds, and nodes whose every dependency dangles. */
  lemma LineageRoots(m: Manifest, describe: bool)
    ensures var g, nodes, sources := Lineage(m, describe), NodesOf(m), SourcesOf(m);
      forall v :: v in Roots(g) <==>
        && (v in nodes.entries || v in sources.entries)
        && (v in nodes.entries ==> forall p :: p in Parents(nodes.entries[v]) ==> p !in nodes.entries && p !in sources.entries)
  {
    forall v {
      LineageRootAt(m, describe, v);
    }
  }

  lemma LineageRootAt(m: Manifest, describe: bool, v: Id)
    ensures var g, nodes, sources := Lineage(m, describe), NodesOf(m), SourcesOf(m);
      v in Roots(g) <==>
        && (v in nodes.entries || v in sources.entries)
        && (v in nodes.entries ==> forall p :: p in Parents(nodes.entries[v]) ==> p !in nodes.entries && p !in sources.entries)
  {
    LineageVertices(m, describe);
    InDegreeZero(Lineage(m, describe), v);
    LineageEdgesInto(m, describe, v);
  }

  /** No edge ends in `v` exactly when `v` is not a manifest node or none of
      its declared parents is a vertex. */
  lemma LineageEdgesInto(m: Manifest, describe: bool, v: Id)
    ensures var g, nodes, sources := Lineage(m, describe), NodesOf(m), SourcesOf(m);
      (forall u :: (u, v) !in g.EdgeSet()) <==>
        (v in nodes.entries ==> forall p :: p in Parents(nodes.entries[v]) ==> p !in nodes.entries && p !in sources.entries)
  {
    LineageEdges(m, describe);
  }

  /** A vertex of the lineage graph is a leaf exactly when no manifest node
      lists it as a parent. */
  lemma LineageLeaves(m: Manifest, describe: bool)
    ensures var g, nodes := Lineage(m, describe), NodesOf(m);
      forall v :: v in Leaves(g) <==>
        && v in g.order
        && forall c :: c in nodes.entries ==> v !in Parents(nodes.entries[c])
  {
    forall v {
      LineageLeafAt(m, describe, v);
    }
  }

  lemma LineageLeafAt(m: Manifest, describe: bool, v: Id)
    ensures var g, nodes := Lineage(m, describe), NodesOf(m);
      v in Leaves(g) <==>
        && v in g.order
        && forall c :: c in nodes.entries ==> v !in Parents(nodes.entries[c])
  {
    OutDegreeZero(Lineage(m, describe), v);
    if v in Lineage(m, describe).order {
      LineageEdgesFrom(m, describe, v);
    }
  }

  /** No edge starts at a vertex `v` exactly when no manifest node lists it
      as a parent. */
  lemma LineageEdgesFrom(m: Manifest, describe: bool, v: Id)
    requires v in Lineage(m, describe).order
    ensures var g, nodes := Lineage(m, describe), NodesOf(m);
      (forall c :: (v, c) !in g.EdgeSet()) <==> forall c :: c in nodes.entries ==> v !in Parents(nodes.entries[c])
  {
    var g, nodes, sources := Lineage(m, describe), NodesOf(m), SourcesOf(m);
    LineageVertices(m, describe);
    LineageEdges(m, describe);
    EdgesFromByParents(g, nodes.entries, sources.entries, v);
  }

  /** The edges out of a node or source, in terms of the manifest. */
  lemma EdgesFromByParents(g: GraphView, nodes: map<Id, NodeEntry>, sources: map<Id, SourceEntry>, v: Id)
    requires forall p, c :: (p, c) in g.EdgeSet() <==> (p in nodes || p in sources) && c in nodes && p in Parents(nodes[c])
    requires v in nodes || v in sources
    ensures (forall c :: (v, c) !in g.EdgeSet()) <==> forall c :: c in nodes ==> v !in Parents(nodes[c])
  {
  }

  /** A vertex is a root exactly when no edge ends in it. */
  lemma InDegreeZero(g: GraphView, v: Id)
    ensures v in Roots(g) <==> v in g.order && forall u :: (u, v) !in g.EdgeSet()
  {
    var into := set u | u in g.succ && v in g.succ[u];
    if u :| (u, v) in g.EdgeSet() {
      assert u in into;
    }
  }

  /** A vertex is a leaf exactly when no edge starts at it. */
  lemma OutDegreeZero(g: GraphView, v: Id)
    ensures v in Leaves(g) <==> v in g.order && forall c :: (v, c) !in g.EdgeSet()
  {
    if g.OutDegree(v) != 0 {
      assert (v, g.succ[v][0]) in g.EdgeSet();
    }
  }
}
