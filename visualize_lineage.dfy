/**
  `visualize_lineage.py`: node colours by type, layers by name prefix, and
  the layered layout with three units between layers and 1.5 between the
  slots of a layer.
*/
module VisualizeLineage {
  import opened Manifest
  import opened Graph
  import opened Counting
  import opened Layout

  /** `color_map` of `get_node_color` */
  const COLOR_MAP: map<string, string> := map[
    "seed" := "#90EE90",
    "model" := "#87CEEB",
    "source" := "#FFD700",
    "snapshot" := "#FFA07A",
    "test" := "#DDA0DD"]

  /** The colour of nodes whose type has no entry. */
  const DEFAULT_COLOR := "#D3D3D3"

  /** `get_node_color`: `color_map.get(node_type, '#D3D3D3')`. */
  function NodeColor(nodeType: string): (color: string)
    ensures color == DEFAULT_COLOR <==> nodeType !in COLOR_MAP
    ensures nodeType in COLOR_MAP ==> color == COLOR_MAP[nodeType]
  {
    if nodeType in COLOR_MAP then COLOR_MAP[nodeType] else DEFAULT_COLOR
  }

  /** Each listed type has a colour of its own, so the colour tells the
      listed types apart. */
  lemma ColorsDistinguishTypes(a: string, b: string)
    requires a in COLOR_MAP && NodeColor(a) == NodeColor(b)
    ensures a == b
  {
  }

  /** `get_node_layer`: the first matching prefix decides; a name with none
      of them goes to the middle layer 2. */
  function NodeLayer(name: string): (layer: int)
    ensures 0 <= layer <= 3
    ensures layer == 0 <==> StartsWith(name, "raw_")
    ensures layer == 1 <==> StartsWith(name, "stg_")
    ensures layer == 3 <==> StartsWith(name, "dim_") || StartsWith(name, "fct_")
  {
    if StartsWith(name, "raw_") then 0
    else if StartsWith(name, "stg_") then 1
    else if StartsWith(name, "int_") then 2
    else if StartsWith(name, "dim_") || StartsWith(name, "fct_") then 3
    else 2
  }

  /** `pos[node] = (x, y)` with `x = layer * 3` and
      `y = (layer_positions[layer] - max_in_layer / 2) * 1.5`. */
  function Place(layer: int, slot: nat, size: nat): Position {
    Position(layer * 3, (slot as real - size as real / 2.0) * 1.5)
  }

  /** The layout loop of `visualize_lineage`. */
  method Positions(g: GraphView) returns (pos: map<Id, Position>, layerCounts: map<int, nat>)
    requires Distinct(g.order)
    ensures layerCounts == Tally(Layers(g, NodeLayer))
    ensures forall v :: v in pos <==> v in g.order
    ensures forall i :: 0 <= i < |g.order| ==> pos[g.order[i]] == PlacedAt(Layers(g, NodeLayer), i, Place)
  {
    pos, layerCounts := AssignPositions(g, NodeLayer, Place);
  }

  /** The first pass counts every vertex once: its counts over the layers
      add up to the number of vertices. */
  lemma LayerCountsTotal(g: GraphView)
    ensures SumOver(Tally(Layers(g, NodeLayer)), [0, 1, 2, 3]) == |g.order|
  {
    var ls := Layers(g, NodeLayer);
    forall l | l in ls ensures l in [0, 1, 2, 3] {
      var i :| 0 <= i < |ls| && ls[i] == l;
    }
    TallyTotal(ls, [0, 1, 2, 3]);
  }

  /** A vertex is drawn in the column of its layer: `x` is 0, 3, 6 or 9. */
  lemma PlacedInColumn(g: GraphView, i: nat)
    requires i < |g.order|
    ensures var x := PlacedAt(Layers(g, NodeLayer), i, Place).x;
      x == 3 * NodeLayer(g.NameOf(g.order[i])) && 0 <= x <= 9
  {
  }

  /** No two vertices are drawn at the same place. */
  lemma PositionsApart(g: GraphView, i: nat, j: nat)
    requires i < j < |g.order|
    ensures var ls := Layers(g, NodeLayer);
      PlacedAt(ls, i, Place) != PlacedAt(ls, j, Place)
  {
    var ls := Layers(g, NodeLayer);
    if ls[i] == ls[j] {
      SlotsIncrease(ls, i, j);
    }
  }
}
