# dbt lineage graph, modelled in Dafny

Three scripts read a dbt `manifest.json` and draw its data lineage:
`visualize_lineage.py` (a layered static picture), `visualize_lineage_advanced.py`
(the same with a snapshot layer and other spacings and colours) and
`visualize_lineage_html.py` (an interactive vis.js page). All three build the
lineage graph with the same `extract_lineage`: every manifest node and every
source becomes a vertex of a networkx `DiGraph`, with a name (falling back to
the id) and a type (`resource_type`, falling back to `unknown`, and `source`
for sources), and every declared dependency on an existing vertex becomes an
edge from the parent to the node that depends on it. The static scripts then
count the vertices per layer, place each vertex in a column by its layer and
a slot within that column, and print a summary (vertices per type, roots,
leaves). The HTML script turns the graph into node and edge records and
shows the number of seeds and models.

The project models that pipeline:

- `manifest.dfy` — the parsed manifest: insertion-ordered dicts (`Dict`) of
  node and source entries whose fields may be missing (`Option`).
- `graph.dfy` — the networkx graph: the value `GraphView` (node order,
  attribute dicts, successor lists in insertion order) with `add_node` and
  `add_edge` as functions, and the class `DiGraph` whose methods change its
  fields in place, each proved equal to the function on the old state.
- `extract.dfy` — `extract_lineage` as the method `ExtractLineage`, whose
  three loops are proved to build `Lineage(m, describe)`, a direct
  definition of the graph from the manifest; lemmas state its vertices,
  attributes and edges in terms of the manifest (`describe` adds the
  description attribute that only the HTML script records).
- `counting.dfy` — the `counts[k] = counts.get(k, 0) + 1` idiom as `Tally`,
  and the fact that the counts add up to the number of items counted.
- `layout.dfy` — the two-pass layout loop, shared by the static scripts with
  the layer function and the placement as parameters.
- `summary.dfy` — `print_lineage_summary`: per-type counts, roots and leaves.
- `visualize_lineage.dfy`, `visualize_advanced.dfy`, `visualize_html.dfy` —
  each script's colour table, layer function, spacings, node and edge
  records and seed/model figures.

Where the prose description of the system and the code differ, the model
follows the code: a source whose id is also a node id keeps the node's place
in the vertex order but takes the source's attributes (networkx merges the
attribute dicts), so the vertex count is the sum of the two dict sizes only
when their ids are disjoint; and the HTML seed and model figures compare the
`type` attribute without a fallback.

## Model

| member | source | states |
|---|---|---|
| Graph.DiGraph.constructor | visualize_lineage.py:23 | `nx.DiGraph()` starts with no vertex and no edge |
| Graph.DiGraph.AddNode | visualize_lineage.py:35-40 | a new id is appended to the node order with its attributes and no successors; an existing id keeps its place and its attribute dict is updated key by key |
| Graph.DiGraph.AddEdge | visualize_lineage.py:59 | missing endpoints are first added without attributes; the child is appended to the parent's successors unless already there |
| Graph.WithNodeKeepsEdges | visualize_lineage_advanced.py:43-48 | adding or re-adding a node keeps the graph well formed, adds no edge and adds exactly its id to the vertices |
| Graph.WithEdgeAddsEdge | visualize_lineage_advanced.py:55-57 | `add_edge` keeps the graph well formed and adds exactly the edge `(u, v)`, so adding an edge twice leaves one edge |
| Graph.WithEdgeBetweenNodes | visualize_lineage.py:58-59 | with both endpoints already vertices, `add_edge` leaves the vertex order and the attributes unchanged |
| Graph.EdgeListIsEdgeSet | visualize_lineage_html.py:88 | `G.edges()` lists every edge of a well-formed graph exactly once, and both ends of each are vertices |
| Extract.ExtractLineage | visualize_lineage.py:21-61 | the graph built by the three loops is exactly `Lineage(m, describe)` |
| Extract.AddNodes | visualize_lineage.py:29-40 | the node loop performs one `add_node` per manifest node, in dict order, with name, type and label (and description) |
| Extract.AddSources | visualize_lineage.py:42-50 | the source loop performs one `add_node` per source, in dict order, typed `source` |
| Extract.AddEdges | visualize_lineage.py:52-59 | the edge loop performs `add_edge(parent, node)` for each declared parent in order, exactly when the parent is already a vertex |
| Extract.ReplayIsLineage | visualize_lineage_advanced.py:20-59 | replaying every `add_node` and `add_edge` call from an empty graph yields the graph defined directly from the manifest |
| Extract.LineageVertices | visualize_lineage.py:26-50 | the vertices are exactly the node ids and the source ids, each once, nodes first in manifest order; with disjoint ids the order is node keys then source keys |
| Extract.LineageVertexCount | visualize_lineage_advanced.py:25-48 | with no id shared between nodes and sources, there are `len(nodes) + len(sources)` vertices |
| Extract.LineageAttrsAt | visualize_lineage.py:30-50 | a vertex's attribute dict is the source's when its id is a source id, and the node's otherwise |
| Extract.SourceOverridesNode | visualize_lineage.py:43-50 | a source re-added over a node's id replaces every attribute the node was given |
| Extract.LineageSourceAttributes | visualize_lineage_html.py:39-48 | every source vertex has type `source`, its name or else its id, and the description `Source data` when descriptions are recorded |
| Extract.LineageNodeAttributes | visualize_lineage_html.py:27-38 | a node vertex that is not also a source has its resource type or `unknown`, its name or else its id, and its description or `''` when descriptions are recorded |
| Extract.LineageLabels | visualize_lineage.py:35-49 | every vertex has a name and a type, and its label equals its name |
| Extract.LineageEdges | visualize_lineage_advanced.py:51-57 | `(p, c)` is an edge exactly when `c` is a manifest node listing `p` among its parents and `p` is a node or a source; dangling parents add nothing |
| Extract.LineageWellFormed | visualize_lineage_html.py:20-58 | the extracted graph has the shape networkx maintains: distinct vertices, attributes and successor lists for exactly the vertices, successors that are vertices, each listed once |
| Extract.LineageChildren | visualize_lineage_html.py:50-56 | the successors of a vertex are manifest nodes, each listed once |
| Counting.Tally | visualize_lineage.py:104 | the counting dict has exactly the counted values as keys, each mapped to its number of occurrences |
| Counting.TallySnoc | visualize_lineage.py:209 | counting one more item bumps only that item's count |
| Counting.TallyTotal | visualize_lineage.py:206-213 | the counts, listed once per key, add up to the number of items counted |
| Layout.AssignPositions | visualize_lineage.py:97-121 | the layer counts are the number of vertices per layer; every vertex, and nothing else, gets a position computed from its layer, its slot (the number of earlier vertices in its layer) and its layer's size |
| Layout.CountLayers | visualize_lineage.py:100-104 | the first pass leaves `layer_counts` equal to the number of vertices per layer |
| Layout.PlaceVertices | visualize_lineage.py:106-121 | the second pass gives the vertex at each position of the node order the next free slot of its layer |
| Layout.SlotInRange | visualize_lineage.py:112-118 | a vertex's slot is below the number of vertices of its layer |
| Layout.SlotsIncrease | visualize_lineage_advanced.py:104-117 | within a layer the slots grow strictly in node order and the layer size is shared, so no two vertices of a layer share a slot |
| VisualizeLineage.NodeColor | visualize_lineage.py:64-73 | the listed colour for seed, model, source, snapshot and test; grey exactly for every other type |
| VisualizeLineage.ColorsDistinguishTypes | visualize_lineage.py:66-72 | no two listed types share a colour |
| VisualizeLineage.NodeLayer | visualize_lineage.py:76-87 | the layer is in 0..3; it is 0 exactly for `raw_`, 1 exactly for `stg_`, 3 exactly for `dim_` or `fct_`, and 2 otherwise |
| VisualizeLineage.Positions | visualize_lineage.py:116-120 | each vertex is placed with `x = layer * 3` and `y = (slot - size / 2) * 1.5` |
| VisualizeLineage.LayerCountsTotal | visualize_lineage.py:100-104 | the counts of layers 0..3 add up to the number of vertices |
| VisualizeLineage.PlacedInColumn | visualize_lineage.py:116 | a vertex's `x` is three times its layer, between 0 and 9 |
| VisualizeLineage.PositionsApart | visualize_lineage.py:107-121 | no two vertices get the same position |
| VisualizeAdvanced.NodeColor | visualize_lineage_advanced.py:62-70 | the listed colour for seed, model, source and snapshot; grey exactly for every other type |
| VisualizeAdvanced.ColorsAgainstBasic | visualize_lineage_advanced.py:64-69 | snapshots are `#FF69B4` instead of the basic `#FFA07A`, tests are grey instead of plum, every other type is coloured as in the basic script |
| VisualizeAdvanced.NodeLayer | visualize_lineage_advanced.py:73-86 | the layer is in 0..4; it is 4 exactly for `snap_`; any other name gets the basic script's layer |
| VisualizeAdvanced.Positions | visualize_lineage_advanced.py:112-116 | each vertex is placed with `x = layer * 4` and `y = (slot - size / 2) * 1.2` |
| VisualizeAdvanced.LayerCountsTotal | visualize_lineage_advanced.py:97-101 | the counts of layers 0..4 add up to the number of vertices |
| VisualizeAdvanced.PlacedInColumn | visualize_lineage_advanced.py:112 | a vertex's `x` is four times its layer, between 0 and 16 |
| VisualizeAdvanced.PositionsApart | visualize_lineage_advanced.py:103-117 | no two vertices get the same position |
| Summary.TypeCounts | visualize_lineage.py:206-209 | `type_counts` maps each type present to its number of vertices |
| Summary.TypeCountsTotal | visualize_lineage_advanced.py:199-207 | the per-type counts add up to the number of vertices |
| Summary.Select | visualize_lineage_html.py:172 | a list comprehension over the vertices keeps exactly those that pass the test, each once |
| Summary.Roots | visualize_lineage.py:216 | the roots are exactly the vertices with in-degree 0 |
| Summary.Leaves | visualize_lineage.py:222 | the leaves are exactly the vertices with out-degree 0 |
| Summary.InDegreeZero | visualize_lineage_advanced.py:210 | a vertex is a root exactly when no edge ends in it |
| Summary.OutDegreeZero | visualize_lineage_advanced.py:214 | a vertex is a leaf exactly when no edge starts at it |
| Summary.LineageEdgesInto | visualize_lineage.py:53-59 | no edge ends in `v` exactly when `v` is not a manifest node or none of its declared parents is a node or source |
| Summary.LineageEdgesFrom | visualize_lineage.py:57-59 | no edge starts at a vertex exactly when no manifest node lists it as a parent |
| Summary.LineageRoots | visualize_lineage.py:215-216 | the roots of the lineage graph are the sources and the nodes none of whose declared parents is a node or source |
| Summary.LineageLeaves | visualize_lineage.py:221-222 | the leaves of the lineage graph are the vertices no manifest node lists as a parent |
| VisualizeHtml.NodeColor | visualize_lineage_html.py:71-77 | green, blue or gold for seed, model or source; grey exactly for every other type |
| VisualizeHtml.ColorsAgainstBasic | visualize_lineage_html.py:71-76 | snapshots and tests are grey here though the basic script colours them; every other type is coloured as in the basic script |
| VisualizeHtml.NodesData | visualize_lineage_html.py:64-84 | the loop builds one record per vertex, in node order, with id, name as label, `name<br>Type: type` as title, colour and type |
| VisualizeHtml.EdgesData | visualize_lineage_html.py:87-92 | the loop builds one `{from, to}` record per entry of `G.edges()`, in that order |
| VisualizeHtml.NodeRecordsCoverEdges | visualize_lineage_html.py:65-92 | the node records name the vertices in order, each once, and both ends of every edge record have a node record |
| VisualizeHtml.EdgeRecordsAreEdges | visualize_lineage_html.py:87-92 | the edge records are the graph's edges, each once, so there are `G.number_of_edges()` of them |
| VisualizeHtml.LineageRecordOf | visualize_lineage_html.py:66-84 | a source's record is typed `source` and gold with the source's name; a node's record carries its resource type or `unknown`, that type's colour and its name |
| VisualizeHtml.LineageRecords | visualize_lineage_html.py:20-92 | the page built from a manifest has one node record per node and source id, and an edge record exactly for each declared dependency on a node or source |
| VisualizeHtml.CountMatchesSummary | visualize_lineage_html.py:172-175 | for any type but `unknown`, the figure on the page equals the summary's count for that type |
| VisualizeHtml.SeedsAndModels | visualize_lineage_html.py:166-175 | seeds and models together never exceed the total number of vertices |
| VisualizeHtml.CountIsTypedVertices | visualize_lineage_html.py:172 | the figure is the number of distinct vertices with that type |
| VisualizeHtml.LineageTypeCount | visualize_lineage_html.py:175 | for any type but `source`, the figure is the number of manifest nodes of that resource type that are not also sources |

## Left out

- `load_manifest` and JSON parsing: the manifest is an already-parsed value;
  a field is either missing or holds a value of the expected kind (JSON
  `null` and values of another type are not modelled).
- networkx keeps arbitrary attribute keys; the model keeps the four the
  scripts set (`name`, `type`, `label`, `description`) and the successor
  lists, not the predecessor map.
- Drawing: the `node_colors` and `labels` lists, the matplotlib calls,
  legend, layer captions, title, `savefig` and `show` are foreign rendering.
- The HTML template, the vis.js options and writing the file are a foreign
  browser library and I/O; only the data handed to it (node records, edge
  records, node, edge, seed and model figures) is modelled.
- Layout.AssignPositions: `y` is computed on exact reals, not on binary
  floating point, so rounding of `max_in_layer / 2` and of the products with
  1.5 and 1.2 is not modelled.
- Summary.TypeCounts: the sorting and printing of the counts, roots and
  leaves is not modelled; `TypeCountsTotal` takes the printed keys as any
  list of distinct types.
- `main()` of each script: fixed paths, the existence check of the
  manifest file and printing.
- `verify_setup.py`: filesystem and import checks with no logic to state.
