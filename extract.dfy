/**
  `extract_lineage`: the manifest's nodes and sources become the vertices of
  a directed graph, and every declared dependency on an existing vertex
  becomes an edge from the parent to the node that depends on it.
  The three scripts share this function; the interactive one also records a
  description per vertex (`describe`).
*/
module Extract {
  import opened Manifest
  import opened Graph

  /** The attributes a manifest node is added with: `name` falls back to the
      id, `type` to `'unknown'`. */
  function NodeAttrs(id: Id, e: NodeEntry, describe: bool): Attrs {
    var name := e.name.GetOr(id);
    Attrs(Some(name), Some(e.resourceType.GetOr("unknown")), Some(name),
          if describe then Some(e.description.GetOr("")) else None)
  }

  /** The attributes a source is added with: its type is always `'source'`. */
  function SourceAttrs(id: Id, s: SourceEntry, describe: bool): Attrs {
    var name := s.name.GetOr(id);
    Attrs(Some(name), Some("source"), Some(name), if describe then Some("Source data") else None)
  }

  /** The ids of `ks` that are not keys of `seen`, in their order. */
  function Unseen<V>(seen: map<Id, V>, ks: seq<Id>): seq<Id> {
    if ks == [] then []
    else Unseen(seen, ks[..|ks| - 1]) + (if ks[|ks| - 1] in seen then [] else [ks[|ks| - 1]])
  }

  /** The nodes among `ks`, in their order, that list `p` as a parent. */
  function ChildrenAmong(nodes: map<Id, NodeEntry>, ks: seq<Id>, p: Id): seq<Id> {
    if ks == [] then []
    else
      var c := ks[|ks| - 1];
      ChildrenAmong(nodes, ks[..|ks| - 1], p) + (if c in nodes && p in Parents(nodes[c]) then [c] else [])
  }

  /** The node order: the manifest nodes, then the sources not already added. */
  function VertexOrder(m: Manifest): seq<Id> {
    NodesOf(m).keys + Unseen(NodesOf(m).entries, SourcesOf(m).keys)
  }

  /** The attributes of the vertices `nks + ss`: a source's, or else the node's. */
  function AttrsOf(nks: seq<Id>, nodes: map<Id, NodeEntry>, ss: seq<Id>, sources: map<Id, SourceEntry>, describe: bool): map<Id, Attrs>
    requires forall k :: k in nks ==> k in nodes
    requires forall k :: k in ss ==> k in sources
  {
    map k | k in nks + ss ::
      if k in ss then SourceAttrs(k, sources[k], describe) else NodeAttrs(k, nodes[k], describe)
  }

  /** The attributes of each vertex. */
  function VertexAttrs(m: Manifest, describe: bool): map<Id, Attrs> {
    var nodes, sources := NodesOf(m), SourcesOf(m);
    AttrsOf(nodes.keys, nodes.entries, sources.keys, sources.entries, describe)
  }

  /** For each of `vs`, the nodes of `nks` that depend on it, in that order. */
  function ChildrenMap(vs: seq<Id>, nks: seq<Id>, nodes: map<Id, NodeEntry>): map<Id, seq<Id>> {
    map p | p in vs :: ChildrenAmong(nodes, nks, p)
  }

  /** The successors of each vertex: the nodes that depend on it, in manifest order. */
  function VertexSucc(m: Manifest): map<Id, seq<Id>> {
    var nodes := NodesOf(m);
    ChildrenMap(nodes.keys + SourcesOf(m).keys, nodes.keys, nodes.entries)
  }

  /** The graph `extract_lineage(manifest)` returns. */
  function Lineage(m: Manifest, describe: bool): GraphView {
    GraphView(VertexOrder(m), VertexAttrs(m, describe), VertexSucc(m))
  }

  /** `Unseen` keeps exactly the ids of `ks` that are not keys of `seen`,
      each once when `ks` has no repeats. */
  lemma {:induction false} UnseenMembers<V>(seen: map<Id, V>, ks: seq<Id>)
    ensures forall k :: k in Unseen(seen, ks) <==> k in ks && k !in seen
    ensures Distinct(ks) ==> Distinct(Unseen(seen, ks))
  {
    if ks != [] {
      var init, last := ks[..|ks| - 1], ks[|ks| - 1];
      assert ks == init + [last];
      UnseenMembers(seen, init);
      if Distinct(ks) {
        assert Distinct(init) && last !in init;
        var u := Unseen(seen, init);
        assert last !in u;
        var tail := if last in seen then [] else [last];
        forall i, j | 0 <= i < j < |u + tail| ensures (u + tail)[i] != (u + tail)[j] {
          if j >= |u| {
            assert (u + tail)[i] in u;
          }
        }
      }
    }
  }

  /** When no id of `ks` is a key of `seen`, `Unseen` keeps all of `ks`. */
  lemma {:induction false} UnseenAllNew<V>(seen: map<Id, V>, ks: seq<Id>)
    requires forall k :: k in ks ==> k !in seen
    ensures Unseen(seen, ks) == ks
  {
    if ks != [] {
      var init := ks[..|ks| - 1];
      assert ks == init + [ks[|ks| - 1]];
      UnseenAllNew(seen, init);
    }
  }

  /** `ChildrenAmong` holds exactly the nodes of `ks` that declare `p` a
      parent, each once when `ks` has no repeats. */
  lemma {:induction false} ChildrenAmongMembers(nodes: map<Id, NodeEntry>, ks: seq<Id>, p: Id)
    ensures forall c :: c in ChildrenAmong(nodes, ks, p) <==> c in ks && c in nodes && p in Parents(nodes[c])
    ensures Distinct(ks) ==> Distinct(ChildrenAmong(nodes, ks, p))
  {
    if ks != [] {
      var init, last := ks[..|ks| - 1], ks[|ks| - 1];
      assert ks == init + [last];
      ChildrenAmongMembers(nodes, init, p);
      if Distinct(ks) {
        assert last !in init;
      }
    }
  }

  /** A source that shares an id with a node overwrites all its attributes. */
  lemma SourceOverridesNode(id: Id, e: NodeEntry, s: SourceEntry, describe: bool)
    ensures Update(NodeAttrs(id, e, describe), SourceAttrs(id, s, describe)) == SourceAttrs(id, s, describe)
  {
  }

  /** Two sequences without repeats and without common elements concatenate
      to one without repeats. */
  lemma DistinctConcat<T>(a: seq<T>, b: seq<T>)
    requires Distinct(a) && Distinct(b)
    requires forall x :: x in a ==> x !in b
    ensures Distinct(a + b)
  {
    forall i, j | 0 <= i < j < |a + b| ensures (a + b)[i] != (a + b)[j] {
      if i < |a| && j >= |a| {
        assert (a + b)[i] in a && (a + b)[j] in b;
      }
    }
  }

  /** The vertices are exactly the node ids and the source ids, each listed
      once; the nodes come first, in manifest order, and a source that
      shares an id with a node keeps the node's place. */
  lemma LineageVertices(m: Manifest, describe: bool)
    ensures var g, nodes, sources := Lineage(m, describe), NodesOf(m), SourcesOf(m);
      && (forall v :: v in g.order <==> v in nodes.entries || v in sources.entries)
      && Distinct(g.order)
      && g.order[..|nodes.keys|] == nodes.keys
      && ((forall k :: k in sources.entries ==> k !in nodes.entries) ==> g.order == nodes.keys + sources.keys)
  {
    var nodes, sources := NodesOf(m), SourcesOf(m);
    var u := Unseen(nodes.entries, sources.keys);
    UnseenMembers(nodes.entries, sources.keys);
    DistinctConcat(nodes.keys, u);
    assert (nodes.keys + u)[..|nodes.keys|] == nodes.keys;
    if forall k :: k in sources.entries ==> k !in nodes.entries {
      UnseenAllNew(nodes.entries, sources.keys);
    }
  }

  /** With no id shared between nodes and sources, the graph has one vertex
      per node and per source. */
  lemma LineageVertexCount(m: Manifest, describe: bool)
    requires forall k :: k in SourcesOf(m).entries ==> k !in NodesOf(m).entries
    ensures |Lineage(m, describe).order| == |NodesOf(m).keys| + |SourcesOf(m).keys|
  {
    LineageVertices(m, describe);
  }

  /** The attribute dict of vertex `v`: a source's when `v` is a source id,
      else the node's. */
  lemma LineageAttrsAt(m: Manifest, describe: bool, v: Id)
    ensures var g, nodes, sources := Lineage(m, describe), NodesOf(m), SourcesOf(m);
      && (v in g.attrs <==> v in nodes.entries || v in sources.entries)
      && (v in sources.entries ==> g.attrs[v] == SourceAttrs(v, sources.entries[v], describe))
      && (v in nodes.entries && v !in sources.entries ==> g.attrs[v] == NodeAttrs(v, nodes.entries[v], describe))
  {
    var nodes, sources := NodesOf(m), SourcesOf(m);
    assert v in nodes.keys + sources.keys <==> v in nodes.keys || v in sources.keys;
  }

  /** A source is typed `'source'`, named by its `name` or else its id, and
      described as `'Source data'` when descriptions are recorded. */
  lemma LineageSourceAttributes(m: Manifest, describe: bool)
    ensures var g, sources := Lineage(m, describe), SourcesOf(m);
      forall v :: v in sources.entries ==>
        && v in g.attrs
        && g.attrs[v].kind == Some("source")
        && g.attrs[v].name == Some(sources.entries[v].name.GetOr(v))
        && g.attrs[v].description == (if describe then Some("Source data") else None)
  {
    forall v | v in SourcesOf(m).entries {
      LineageAttrsAt(m, describe, v);
    }
  }

  /** A node that is not also a source keeps its resource type, or
      `'unknown'`, its name, or else its id, and its description, or `''`,
      when descriptions are recorded. */
  lemma LineageNodeAttributes(m: Manifest, describe: bool)
    ensures var g, nodes, sources := Lineage(m, describe), NodesOf(m), SourcesOf(m);
      forall v :: v in nodes.entries && v !in sources.entries ==>
        && v in g.attrs
        && g.attrs[v].kind == Some(nodes.entries[v].resourceType.GetOr("unknown"))
        && g.attrs[v].name == Some(nodes.entries[v].name.GetOr(v))
        && g.attrs[v].description == (if describe then Some(nodes.entries[v].description.GetOr("")) else None)
  {
    forall v | v in NodesOf(m).entries && v !in SourcesOf(m).entries {
      LineageAttrsAt(m, describe, v);
    }
  }

  /** Every vertex has a name, a type and a label equal to its name. */
  lemma LineageLabels(m: Manifest, describe: bool)
    ensures var g := Lineage(m, describe);
      forall v :: v in g.attrs ==> g.attrs[v].name.Some? && g.attrs[v].kind.Some? && g.attrs[v].nodeLabel == g.attrs[v].name
  {
    forall v | v in Lineage(m, describe).attrs {
      LineageAttrsAt(m, describe, v);
    }
  }

  /** `(p, c)` is an edge exactly when `c` is a manifest node that lists `p`
      among its parents and `p` is a node or a source; a parent that is
      neither is dropped. */
  lemma LineageEdges(m: Manifest, describe: bool)
    ensures var g, nodes, sources := Lineage(m, describe), NodesOf(m), SourcesOf(m);
      forall p, c :: (p, c) in g.EdgeSet() <==>
        (p in nodes.entries || p in sources.entries) && c in nodes.entries && p in Parents(nodes.entries[c])
  {
    var g, nodes, sources := Lineage(m, describe), NodesOf(m), SourcesOf(m);
    forall p, c ensures (p, c) in g.EdgeSet() <==>
        (p in nodes.entries || p in sources.entries) && c in nodes.entries && p in Parents(nodes.entries[c])
    {
      ChildrenAmongMembers(nodes.entries, nodes.keys, p);
      assert p in g.succ <==> p in nodes.keys || p in sources.keys;
    }
  }

  /** The graph has the shape networkx maintains. */
  lemma LineageWellFormed(m: Manifest, describe: bool)
    ensures Lineage(m, describe).WellFormed()
  {
    var g, nodes, sources := Lineage(m, describe), NodesOf(m), SourcesOf(m);
    LineageVertices(m, describe);
    forall v ensures (v in g.attrs <==> v in g.order) && (v in g.succ <==> v in g.order) {
      LineageAttrsAt(m, describe, v);
    }
    forall u | u in g.succ ensures Distinct(g.succ[u]) && forall w :: w in g.succ[u] ==> w in g.attrs {
      LineageChildren(m, describe, u);
    }
  }

  /** The successors of a vertex are manifest nodes, each listed once. */
  lemma LineageChildren(m: Manifest, describe: bool, u: Id)
    requires u in Lineage(m, describe).succ
    ensures var g := Lineage(m, describe);
      Distinct(g.succ[u]) && forall w :: w in g.succ[u] ==> w in NodesOf(m).entries && w in g.attrs
  {
    var g, nodes := Lineage(m, describe), NodesOf(m);
    ChildrenAmongMembers(nodes.entries, nodes.keys, u);
    forall w | w in g.succ[u] ensures w in g.attrs {
      LineageAttrsAt(m, describe, w);
    }
  }

  // The proof of `ExtractLineage` follows the graph through its three loops.
  // Each partial state below is stated over the manifest's key sequences and
  // entry maps, and each step lemma shows that one `add_node` or `add_edge`
  // call moves the graph from one partial state to the next.

  /** The graph once the nodes `ks` have been added. */
  ghost function NodesAdded(ks: seq<Id>, nodes: map<Id, NodeEntry>, describe: bool): GraphView
    requires forall k :: k in ks ==> k in nodes
  {
    GraphView(ks, map k | k in ks :: NodeAttrs(k, nodes[k], describe), NoSuccessors(ks))
  }

  /** An empty successor list for each of `ks`. */
  ghost function NoSuccessors(ks: seq<Id>): map<Id, seq<Id>> {
    map k | k in ks :: []
  }

  lemma NoSuccessorsStep(ks: seq<Id>, id: Id)
    ensures NoSuccessors(ks + [id]) == NoSuccessors(ks)[id := []]
  {
    var after, expected := NoSuccessors(ks + [id]), NoSuccessors(ks)[id := []];
    assert after.Keys == expected.Keys;
  }

  lemma NodeStepAppend(ks: seq<Id>, nodes: map<Id, NodeEntry>, id: Id, describe: bool)
    requires forall k :: k in ks + [id] ==> k in nodes
    requires id !in ks
    ensures NodesAdded(ks, nodes, describe).WithNode(id, NodeAttrs(id, nodes[id], describe))
              == NodesAdded(ks + [id], nodes, describe)
  {
    var g, h := NodesAdded(ks, nodes, describe), NodesAdded(ks + [id], nodes, describe);
    var r := g.WithNode(id, NodeAttrs(id, nodes[id], describe));
    assert id !in g.attrs;
    NoSuccessorsStep(ks, id);
    assert r.attrs.Keys == h.attrs.Keys;
    assert r.attrs == h.attrs;
  }

  /** Adding node `i` of `ks` extends the first `i`. */
  lemma NodeStep(ks: seq<Id>, nodes: map<Id, NodeEntry>, i: nat, describe: bool)
    requires Distinct(ks) && forall k :: k in ks ==> k in nodes
    requires i < |ks|
    ensures NodesAdded(ks[..i], nodes, describe).WithNode(ks[i], NodeAttrs(ks[i], nodes[ks[i]], describe))
              == NodesAdded(ks[..i + 1], nodes, describe)
  {
    assert ks[..i + 1] == ks[..i] + [ks[i]];
    NodeStepAppend(ks[..i], nodes, ks[i], describe);
  }

  /** The graph once the nodes `nks` and then the sources `ss` have been added. */
  ghost function SourcesAdded(nks: seq<Id>, nodes: map<Id, NodeEntry>, ss: seq<Id>, sources: map<Id, SourceEntry>, describe: bool): GraphView
    requires forall k :: k in nks ==> k in nodes
    requires forall k :: k in ss ==> k in sources
  {
    GraphView(nks + Unseen(nodes, ss), AttrsOf(nks, nodes, ss, sources, describe), NoSuccessors(nks + ss))
  }

  lemma NodesThenSources(nks: seq<Id>, nodes: map<Id, NodeEntry>, sources: map<Id, SourceEntry>, describe: bool)
    requires forall k :: k in nks ==> k in nodes
    ensures NodesAdded(nks, nodes, describe) == SourcesAdded(nks, nodes, [], sources, describe)
  {
    assert nks + [] == nks;
  }

  lemma AttrsOfStep(nks: seq<Id>, nodes: map<Id, NodeEntry>, ss: seq<Id>, sources: map<Id, SourceEntry>, id: Id, describe: bool)
    requires forall k :: k in nks ==> k in nodes
    requires forall k :: k in ss + [id] ==> k in sources
    ensures var before := AttrsOf(nks, nodes, ss, sources, describe);
      var a := SourceAttrs(id, sources[id], describe);
      && (id in before ==> Update(before[id], a) == a)
      && AttrsOf(nks, nodes, ss + [id], sources, describe) == before[id := a]
  {
    var before := AttrsOf(nks, nodes, ss, sources, describe);
    var after := AttrsOf(nks, nodes, ss + [id], sources, describe);
    var expected := before[id := SourceAttrs(id, sources[id], describe)];
    assert after.Keys == expected.Keys by {
      assert nks + (ss + [id]) == (nks + ss) + [id];
    }
    forall k | k in after ensures after[k] == expected[k] {
      if k != id {
        assert k in ss + [id] <==> k in ss;
      }
    }
  }

  lemma SourceStepAppend(nks: seq<Id>, nodes: map<Id, NodeEntry>, ss: seq<Id>, sources: map<Id, SourceEntry>, id: Id, describe: bool)
    requires forall k :: k in nks <==> k in nodes
    requires forall k :: k in ss + [id] ==> k in sources
    requires id !in ss
    ensures SourcesAdded(nks, nodes, ss, sources, describe).WithNode(id, SourceAttrs(id, sources[id], describe))
              == SourcesAdded(nks, nodes, ss + [id], sources, describe)
  {
    var g, h := SourcesAdded(nks, nodes, ss, sources, describe), SourcesAdded(nks, nodes, ss + [id], sources, describe);
    var r := g.WithNode(id, SourceAttrs(id, sources[id], describe));
    SourceStepOrder(nks, nodes, ss, id);
    AttrsOfStep(nks, nodes, ss, sources, id, describe);
    SourceStepSucc(nks, nodes, ss, id);
    assert id in g.attrs <==> id in nodes;
  }

  lemma SourceStepOrder(nks: seq<Id>, nodes: map<Id, NodeEntry>, ss: seq<Id>, id: Id)
    ensures nks + Unseen(nodes, ss + [id]) == (nks + Unseen(nodes, ss)) + (if id in nodes then [] else [id])
  {
    UnseenSnoc(nodes, ss, id);
  }

  lemma UnseenSnoc<V>(seen: map<Id, V>, ss: seq<Id>, id: Id)
    ensures Unseen(seen, ss + [id]) == Unseen(seen, ss) + (if id in seen then [] else [id])
  {
    var t := ss + [id];
    assert t[..|t| - 1] == ss;
  }

  lemma SourceStepSucc(nks: seq<Id>, nodes: map<Id, NodeEntry>, ss: seq<Id>, id: Id)
    requires forall k :: k in nks <==> k in nodes
    ensures NoSuccessors(nks + (ss + [id])) == (if id in nodes then NoSuccessors(nks + ss) else NoSuccessors(nks + ss)[id := []])
  {
    NoSuccessorsStep(nks + ss, id);
    assert nks + (ss + [id]) == (nks + ss) + [id];
    if id in nodes {
      assert id in nks + ss;
      assert NoSuccessors(nks + ss)[id := []] == NoSuccessors(nks + ss);
    }
  }

  function Min(a: nat, b: nat): nat {
    if a <= b then a else b
  }

  /** The successors of `p` once the edges of the first `i` nodes of `nks`,
      and those for the first `j` parents of node `i`, have been added. */
  ghost function PartialChildren(nks: seq<Id>, nodes: map<Id, NodeEntry>, i: nat, j: nat, p: Id): seq<Id>
    requires i <= |nks| && forall k :: k in nks ==> k in nodes
  {
    ChildrenAmong(nodes, nks[..i], p) +
      if i < |nks| && p in Parents(nodes[nks[i]])[..Min(j, |Parents(nodes[nks[i]])|)]
      then [nks[i]] else []
  }

  /** The graph at that point of the edge loop, over the vertices `vs`. */
  ghost function EdgesAdded(order: seq<Id>, attrs: map<Id, Attrs>, vs: seq<Id>, nks: seq<Id>, nodes: map<Id, NodeEntry>, i: nat, j: nat): GraphView
    requires i <= |nks| && forall k :: k in nks ==> k in nodes
  {
    GraphView(order, attrs, map p | p in vs :: PartialChildren(nks, nodes, i, j, p))
  }

  lemma SourcesThenEdges(nks: seq<Id>, nodes: map<Id, NodeEntry>, ss: seq<Id>, sources: map<Id, SourceEntry>, describe: bool)
    requires forall k :: k in nks ==> k in nodes
    requires forall k :: k in ss ==> k in sources
    ensures var g := SourcesAdded(nks, nodes, ss, sources, describe);
      g == EdgesAdded(g.order, g.attrs, nks + ss, nks, nodes, 0, 0)
  {
    var g := SourcesAdded(nks, nodes, ss, sources, describe);
    var h := EdgesAdded(g.order, g.attrs, nks + ss, nks, nodes, 0, 0);
    forall p | p in h.succ ensures h.succ[p] == [] {
      assert PartialChildren(nks, nodes, 0, 0, p) == [];
    }
    assert g.succ == h.succ;
  }

  lemma EdgeStep(order: seq<Id>, attrs: map<Id, Attrs>, vs: seq<Id>, nks: seq<Id>, nodes: map<Id, NodeEntry>, i: nat, j: nat)
    requires forall k :: k in nks ==> k in nodes && k in attrs
    requires forall p :: p in attrs <==> p in vs
    requires i < |nks| && j < |Parents(nodes[nks[i]])|
    requires nks[i] !in nks[..i]
    ensures var child := nks[i];
      var parent := Parents(nodes[child])[j];
      var g := EdgesAdded(order, attrs, vs, nks, nodes, i, j);
      EdgesAdded(order, attrs, vs, nks, nodes, i, j + 1) == if parent in g.attrs then g.WithEdge(parent, child) else g
  {
    var parent := Parents(nodes[nks[i]])[j];
    if parent in attrs {
      EdgeStepAdds(order, attrs, vs, nks, nodes, i, j);
    } else {
      EdgeStepSkips(order, attrs, vs, nks, nodes, i, j);
    }
  }

  /** A parent that is a vertex gains node `i` as a successor. */
  lemma EdgeStepAdds(order: seq<Id>, attrs: map<Id, Attrs>, vs: seq<Id>, nks: seq<Id>, nodes: map<Id, NodeEntry>, i: nat, j: nat)
    requires forall k :: k in nks ==> k in nodes && k in attrs
    requires forall p :: p in attrs <==> p in vs
    requires i < |nks| && j < |Parents(nodes[nks[i]])|
    requires nks[i] !in nks[..i]
    requires Parents(nodes[nks[i]])[j] in attrs
    ensures var child, parent := nks[i], Parents(nodes[nks[i]])[j];
      EdgesAdded(order, attrs, vs, nks, nodes, i, j + 1) == EdgesAdded(order, attrs, vs, nks, nodes, i, j).WithEdge(parent, child)
  {
    var child, parent := nks[i], Parents(nodes[nks[i]])[j];
    var g, h := EdgesAdded(order, attrs, vs, nks, nodes, i, j), EdgesAdded(order, attrs, vs, nks, nodes, i, j + 1);
    var ws := g.succ[parent];
    EdgeStepOthers(order, attrs, vs, nks, nodes, i, j);
    EdgeStepParent(nks, nodes, i, j);
    SuccessorsUpdated(g.succ, h.succ, parent, if child in ws then ws else ws + [child]);
    WithEdgeBetweenNodes(g, parent, child);
  }

  /** Two successor maps that differ only at `u`. */
  lemma SuccessorsUpdated(before: map<Id, seq<Id>>, after: map<Id, seq<Id>>, u: Id, ws: seq<Id>)
    requires after.Keys == before.Keys && u in after && after[u] == ws
    requires forall p :: p in after && p != u ==> after[p] == before[p]
    ensures after == before[u := ws]
  {
  }

  /** A parent that is not a vertex changes nothing. */
  lemma EdgeStepSkips(order: seq<Id>, attrs: map<Id, Attrs>, vs: seq<Id>, nks: seq<Id>, nodes: map<Id, NodeEntry>, i: nat, j: nat)
    requires forall k :: k in nks ==> k in nodes
    requires forall p :: p in attrs <==> p in vs
    requires i < |nks| && j < |Parents(nodes[nks[i]])|
    requires Parents(nodes[nks[i]])[j] !in attrs
    ensures EdgesAdded(order, attrs, vs, nks, nodes, i, j + 1) == EdgesAdded(order, attrs, vs, nks, nodes, i, j)
  {
    var g, h := EdgesAdded(order, attrs, vs, nks, nodes, i, j), EdgesAdded(order, attrs, vs, nks, nodes, i, j + 1);
    EdgeStepOthers(order, attrs, vs, nks, nodes, i, j);
    assert g.succ == h.succ;
  }

  /** The next parent of node `i` gains no successor but node `i`. */
  lemma EdgeStepOthers(order: seq<Id>, attrs: map<Id, Attrs>, vs: seq<Id>, nks: seq<Id>, nodes: map<Id, NodeEntry>, i: nat, j: nat)
    requires forall k :: k in nks ==> k in nodes
    requires i < |nks| && j < |Parents(nodes[nks[i]])|
    ensures var g, h := EdgesAdded(order, attrs, vs, nks, nodes, i, j), EdgesAdded(order, attrs, vs, nks, nodes, i, j + 1);
      && h.succ.Keys == g.succ.Keys
      && forall p :: p in h.succ && p != Parents(nodes[nks[i]])[j] ==> h.succ[p] == g.succ[p]
  {
    var parents := Parents(nodes[nks[i]]);
    assert parents[..j + 1] == parents[..j] + [parents[j]];
  }

  /** ... and gains node `i` unless it already has it. */
  lemma EdgeStepParent(nks: seq<Id>, nodes: map<Id, NodeEntry>, i: nat, j: nat)
    requires forall k :: k in nks ==> k in nodes
    requires i < |nks| && j < |Parents(nodes[nks[i]])|
    requires nks[i] !in nks[..i]
    ensures var child, parent := nks[i], Parents(nodes[nks[i]])[j];
      var ws := PartialChildren(nks, nodes, i, j, parent);
      PartialChildren(nks, nodes, i, j + 1, parent) == if child in ws then ws else ws + [child]
  {
    var child, parents := nks[i], Parents(nodes[nks[i]]);
    assert parents[..j + 1] == parents[..j] + [parents[j]];
    ChildrenAmongMembers(nodes, nks[..i], parents[j]);
  }

  lemma EdgeNext(order: seq<Id>, attrs: map<Id, Attrs>, vs: seq<Id>, nks: seq<Id>, nodes: map<Id, NodeEntry>, i: nat)
    requires i < |nks| && forall k :: k in nks ==> k in nodes
    ensures EdgesAdded(order, attrs, vs, nks, nodes, i, |Parents(nodes[nks[i]])|)
              == EdgesAdded(order, attrs, vs, nks, nodes, i + 1, 0)
  {
    assert nks[..i + 1][..i] == nks[..i];
    assert nks[..i + 1] == nks[..i] + [nks[i]];
    var parents := Parents(nodes[nks[i]]);
    assert parents[..|parents|] == parents;
    var g, h := EdgesAdded(order, attrs, vs, nks, nodes, i, |parents|), EdgesAdded(order, attrs, vs, nks, nodes, i + 1, 0);
    forall p | p in h.succ ensures g.succ[p] == h.succ[p] {
      assert PartialChildren(nks, nodes, i, |parents|, p) == PartialChildren(nks, nodes, i + 1, 0, p);
    }
    assert g.succ == h.succ;
  }

  lemma EdgesDone(order: seq<Id>, attrs: map<Id, Attrs>, vs: seq<Id>, nks: seq<Id>, nodes: map<Id, NodeEntry>)
    requires forall k :: k in nks ==> k in nodes
    ensures EdgesAdded(order, attrs, vs, nks, nodes, |nks|, 0)
              == GraphView(order, attrs, ChildrenMap(vs, nks, nodes))
  {
    assert nks[..|nks|] == nks;
    var g := EdgesAdded(order, attrs, vs, nks, nodes, |nks|, 0);
    var h := GraphView(order, attrs, ChildrenMap(vs, nks, nodes));
    forall p | p in h.succ ensures g.succ[p] == h.succ[p] {
      assert PartialChildren(nks, nodes, |nks|, 0, p) == ChildrenAmong(nodes, nks, p);
    }
    assert g.succ == h.succ;
  }

  /** No node added yet: the empty graph. */
  lemma NoNodesAdded(ks: seq<Id>, nodes: map<Id, NodeEntry>, describe: bool)
    requires ks == []
    ensures NodesAdded(ks, nodes, describe) == EMPTY_GRAPH
  {
    var g := NodesAdded(ks, nodes, describe);
    assert g.attrs == map[];
    assert g.succ == map[];
  }

  // Replaying the calls `extract_lineage` makes, one at a time.

  /** `g` after `add_node` for each of the first `n` manifest nodes `ks`. */
  ghost function ReplayNodes(g: GraphView, ks: seq<Id>, nodes: map<Id, NodeEntry>, n: nat, describe: bool): GraphView
    requires n <= |ks| && forall k :: k in ks ==> k in nodes
  {
    if n == 0 then g
    else
      var id := ks[n - 1];
      ReplayNodes(g, ks, nodes, n - 1, describe).WithNode(id, NodeAttrs(id, nodes[id], describe))
  }

  /** `g` after `add_node` for each of the first `n` sources `ss`. */
  ghost function ReplaySources(g: GraphView, ss: seq<Id>, sources: map<Id, SourceEntry>, n: nat, describe: bool): GraphView
    requires n <= |ss| && forall k :: k in ss ==> k in sources
  {
    if n == 0 then g
    else
      var id := ss[n - 1];
      ReplaySources(g, ss, sources, n - 1, describe).WithNode(id, SourceAttrs(id, sources[id], describe))
  }

  /** `g` after the guarded `add_edge` calls for the first `j` parents of `child`. */
  ghost function ReplayParentEdges(g: GraphView, child: Id, parents: seq<Id>, j: nat): GraphView
    requires j <= |parents|
  {
    if j == 0 then g
    else
      var h := ReplayParentEdges(g, child, parents, j - 1);
      if parents[j - 1] in h.attrs then h.WithEdge(parents[j - 1], child) else h
  }

  /** `g` after the edge calls for each of the first `i` manifest nodes `ks`. */
  ghost function ReplayEdges(g: GraphView, ks: seq<Id>, nodes: map<Id, NodeEntry>, i: nat): GraphView
    requires i <= |ks| && forall k :: k in ks ==> k in nodes
  {
    if i == 0 then g
    else
      var parents := Parents(nodes[ks[i - 1]]);
      ReplayParentEdges(ReplayEdges(g, ks, nodes, i - 1), ks[i - 1], parents, |parents|)
  }

  /** Every call of `extract_lineage`, replayed on an empty graph. */
  ghost function Replayed(m: Manifest, describe: bool): GraphView {
    var nodes, sources := NodesOf(m), SourcesOf(m);
    var afterNodes := ReplayNodes(EMPTY_GRAPH, nodes.keys, nodes.entries, |nodes.keys|, describe);
    var afterSources := ReplaySources(afterNodes, sources.keys, sources.entries, |sources.keys|, describe);
    ReplayEdges(afterSources, nodes.keys, nodes.entries, |nodes.keys|)
  }

  lemma {:induction false} NodesReplayed(ks: seq<Id>, nodes: map<Id, NodeEntry>, n: nat, describe: bool)
    requires Distinct(ks) && forall k :: k in ks ==> k in nodes
    requires n <= |ks|
    ensures ReplayNodes(EMPTY_GRAPH, ks, nodes, n, describe) == NodesAdded(ks[..n], nodes, describe)
  {
    if n == 0 {
      NoNodesAdded(ks[..0], nodes, describe);
    } else {
      NodesReplayed(ks, nodes, n - 1, describe);
      NodesReplayedStep(ks, nodes, n, describe);
    }
  }

  lemma NodesReplayedStep(ks: seq<Id>, nodes: map<Id, NodeEntry>, n: nat, describe: bool)
    requires Distinct(ks) && forall k :: k in ks ==> k in nodes
    requires 0 < n <= |ks|
    requires ReplayNodes(EMPTY_GRAPH, ks, nodes, n - 1, describe) == NodesAdded(ks[..n - 1], nodes, describe)
    ensures ReplayNodes(EMPTY_GRAPH, ks, nodes, n, describe) == NodesAdded(ks[..n], nodes, describe)
  {
    NodeStep(ks, nodes, n - 1, describe);
  }

  lemma {:induction false} SourcesReplayed(ks: seq<Id>, nodes: map<Id, NodeEntry>, ss: seq<Id>, sources: map<Id, SourceEntry>, n: nat, describe: bool)
    requires forall k :: k in ks <==> k in nodes
    requires Distinct(ss) && forall k :: k in ss ==> k in sources
    requires n <= |ss|
    ensures ReplaySources(NodesAdded(ks, nodes, describe), ss, sources, n, describe)
              == SourcesAdded(ks, nodes, ss[..n], sources, describe)
  {
    if n == 0 {
      assert ss[..0] == [];
      NodesThenSources(ks, nodes, sources, describe);
    } else {
      SourcesReplayed(ks, nodes, ss, sources, n - 1, describe);
      SourcesReplayedStep(ks, nodes, ss, sources, n, describe);
    }
  }

  lemma SourcesReplayedStep(ks: seq<Id>, nodes: map<Id, NodeEntry>, ss: seq<Id>, sources: map<Id, SourceEntry>, n: nat, describe: bool)
    requires forall k :: k in ks <==> k in nodes
    requires Distinct(ss) && forall k :: k in ss ==> k in sources
    requires 0 < n <= |ss|
    requires ReplaySources(NodesAdded(ks, nodes, describe), ss, sources, n - 1, describe)
               == SourcesAdded(ks, nodes, ss[..n - 1], sources, describe)
    ensures ReplaySources(NodesAdded(ks, nodes, describe), ss, sources, n, describe)
              == SourcesAdded(ks, nodes, ss[..n], sources, describe)
  {
    SourceStep(ks, nodes, ss, sources, n - 1, describe);
  }

  /** Adding source `i` of `ss` extends the first `i`. */
  lemma SourceStep(ks: seq<Id>, nodes: map<Id, NodeEntry>, ss: seq<Id>, sources: map<Id, SourceEntry>, i: nat, describe: bool)
    requires forall k :: k in ks <==> k in nodes
    requires Distinct(ss) && forall k :: k in ss ==> k in sources
    requires i < |ss|
    ensures SourcesAdded(ks, nodes, ss[..i], sources, describe).WithNode(ss[i], SourceAttrs(ss[i], sources[ss[i]], describe))
              == SourcesAdded(ks, nodes, ss[..i + 1], sources, describe)
  {
    assert ss[..i + 1] == ss[..i] + [ss[i]];
    SourceStepAppend(ks, nodes, ss[..i], sources, ss[i], describe);
  }

  lemma {:induction false} ParentEdgesReplayed(order: seq<Id>, attrs: map<Id, Attrs>, vs: seq<Id>, ks: seq<Id>, nodes: map<Id, NodeEntry>, i: nat, j: nat)
    requires Distinct(ks) && forall k :: k in ks ==> k in nodes && k in attrs
    requires forall p :: p in attrs <==> p in vs
    requires i < |ks| && j <= |Parents(nodes[ks[i]])|
    ensures ReplayParentEdges(EdgesAdded(order, attrs, vs, ks, nodes, i, 0), ks[i], Parents(nodes[ks[i]]), j)
              == EdgesAdded(order, attrs, vs, ks, nodes, i, j)
  {
    if j > 0 {
      ParentEdgesReplayed(order, attrs, vs, ks, nodes, i, j - 1);
      ParentEdgesReplayedStep(order, attrs, vs, ks, nodes, i, j);
    }
  }

  lemma ParentEdgesReplayedStep(order: seq<Id>, attrs: map<Id, Attrs>, vs: seq<Id>, ks: seq<Id>, nodes: map<Id, NodeEntry>, i: nat, j: nat)
    requires Distinct(ks) && forall k :: k in ks ==> k in nodes && k in attrs
    requires forall p :: p in attrs <==> p in vs
    requires i < |ks| && 0 < j <= |Parents(nodes[ks[i]])|
    requires ReplayParentEdges(EdgesAdded(order, attrs, vs, ks, nodes, i, 0), ks[i], Parents(nodes[ks[i]]), j - 1)
               == EdgesAdded(order, attrs, vs, ks, nodes, i, j - 1)
    ensures ReplayParentEdges(EdgesAdded(order, attrs, vs, ks, nodes, i, 0), ks[i], Parents(nodes[ks[i]]), j)
              == EdgesAdded(order, attrs, vs, ks, nodes, i, j)
  {
    assert ks[i] !in ks[..i];
    EdgeStep(order, attrs, vs, ks, nodes, i, j - 1);
  }

  lemma {:induction false} EdgesReplayed(order: seq<Id>, attrs: map<Id, Attrs>, vs: seq<Id>, ks: seq<Id>, nodes: map<Id, NodeEntry>, i: nat)
    requires Distinct(ks) && forall k :: k in ks ==> k in nodes && k in attrs
    requires forall p :: p in attrs <==> p in vs
    requires i <= |ks|
    ensures ReplayEdges(EdgesAdded(order, attrs, vs, ks, nodes, 0, 0), ks, nodes, i)
              == EdgesAdded(order, attrs, vs, ks, nodes, i, 0)
  {
    if i > 0 {
      var start := EdgesAdded(order, attrs, vs, ks, nodes, 0, 0);
      var parents := Parents(nodes[ks[i - 1]]);
      assert ReplayEdges(start, ks, nodes, i)
               == ReplayParentEdges(ReplayEdges(start, ks, nodes, i - 1), ks[i - 1], parents, |parents|);
      EdgesReplayed(order, attrs, vs, ks, nodes, i - 1);
      ChildEdgesReplayed(order, attrs, vs, ks, nodes, i - 1);
    }
  }

  /** The edge calls for manifest node `i` take the graph from its first `i`
      nodes' edges to its first `i + 1` nodes' edges. */
  lemma ChildEdgesReplayed(order: seq<Id>, attrs: map<Id, Attrs>, vs: seq<Id>, ks: seq<Id>, nodes: map<Id, NodeEntry>, i: nat)
    requires Distinct(ks) && forall k :: k in ks ==> k in nodes && k in attrs
    requires forall p :: p in attrs <==> p in vs
    requires i < |ks|
    ensures var parents := Parents(nodes[ks[i]]);
      ReplayParentEdges(EdgesAdded(order, attrs, vs, ks, nodes, i, 0), ks[i], parents, |parents|)
        == EdgesAdded(order, attrs, vs, ks, nodes, i + 1, 0)
  {
    ParentEdgesReplayed(order, attrs, vs, ks, nodes, i, |Parents(nodes[ks[i]])|);
    EdgeNext(order, attrs, vs, ks, nodes, i);
  }

  /** The node and source loops build `SourcesAdded` for the whole manifest. */
  lemma VerticesReplayed(ks: seq<Id>, nodes: map<Id, NodeEntry>, ss: seq<Id>, sources: map<Id, SourceEntry>, describe: bool)
    requires Distinct(ks) && forall k :: k in ks <==> k in nodes
    requires Distinct(ss) && forall k :: k in ss ==> k in sources
    ensures ReplaySources(ReplayNodes(EMPTY_GRAPH, ks, nodes, |ks|, describe), ss, sources, |ss|, describe)
              == SourcesAdded(ks, nodes, ss, sources, describe)
  {
    NodesReplayed(ks, nodes, |ks|, describe);
    assert ks[..|ks|] == ks;
    SourcesReplayed(ks, nodes, ss, sources, |ss|, describe);
    assert ss[..|ss|] == ss;
  }

  /** Replaying the calls builds the lineage graph. */
  lemma ReplayIsLineage(m: Manifest, describe: bool)
    ensures Replayed(m, describe) == Lineage(m, describe)
  {
    var nodes, sources := NodesOf(m), SourcesOf(m);
    var ks, ss := nodes.keys, sources.keys;
    VerticesReplayed(ks, nodes.entries, ss, sources.entries, describe);
    SourcesThenEdges(ks, nodes.entries, ss, sources.entries, describe);
    var order, attrs := VertexOrder(m), VertexAttrs(m, describe);
    EdgesReplayed(order, attrs, ks + ss, ks, nodes.entries, |ks|);
    EdgesDone(order, attrs, ks + ss, ks, nodes.entries);
  }

  /** `extract_lineage`: add every node, then every source, then an edge for
      every declared parent that is already a vertex. */
  method ExtractLineage(m: Manifest, describe: bool) returns (g: DiGraph)
    ensures fresh(g)
    ensures g.View() == Lineage(m, describe)
  {
    g := new DiGraph();
    var nodes, sources := NodesOf(m), SourcesOf(m);
    AddNodes(g, nodes.keys, nodes.entries, describe);
    AddSources(g, sources.keys, sources.entries, describe);
    AddEdges(g, nodes.keys, nodes.entries);
    assert g.View() == Replayed(m, describe);
    ReplayIsLineage(m, describe);
  }

  /** The first loop of `extract_lineage`: `add_node` for each manifest node, in order. */
  method AddNodes(g: DiGraph, ks: seq<Id>, nodes: map<Id, NodeEntry>, describe: bool)
    requires forall k :: k in ks ==> k in nodes
    modifies g
    ensures g.View() == ReplayNodes(old(g.View()), ks, nodes, |ks|, describe)
  {
    ghost var start := g.View();
    for i := 0 to |ks|
      invariant g.View() == ReplayNodes(start, ks, nodes, i, describe)
    {
      g.AddNode(ks[i], NodeAttrs(ks[i], nodes[ks[i]], describe));
    }
  }

  /** The second loop: `add_node` for each source, in order. */
  method AddSources(g: DiGraph, ss: seq<Id>, sources: map<Id, SourceEntry>, describe: bool)
    requires forall k :: k in ss ==> k in sources
    modifies g
    ensures g.View() == ReplaySources(old(g.View()), ss, sources, |ss|, describe)
  {
    ghost var start := g.View();
    for i := 0 to |ss|
      invariant g.View() == ReplaySources(start, ss, sources, i, describe)
    {
      g.AddNode(ss[i], SourceAttrs(ss[i], sources[ss[i]], describe));
    }
  }

  /** The third loop: for each manifest node, in order, `add_edge` from each
      of its declared parents, in order, that is already a vertex. */
  method AddEdges(g: DiGraph, ks: seq<Id>, nodes: map<Id, NodeEntry>)
    requires forall k :: k in ks ==> k in nodes
    modifies g
    ensures g.View() == ReplayEdges(old(g.View()), ks, nodes, |ks|)
  {
    ghost var start := g.View();
    for i := 0 to |ks|
      invariant g.View() == ReplayEdges(start, ks, nodes, i)
    {
      var child := ks[i];
      var parents := Parents(nodes[child]);
      for j := 0 to |parents|
        invariant g.View() == ReplayParentEdges(ReplayEdges(start, ks, nodes, i), child, parents, j)
      {
        var parent := parents[j];
        if parent in g.attrs {
          g.AddEdge(parent, child);
        }
      }
    }
  }
}
