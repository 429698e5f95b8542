/**
  `visualize_lineage_advanced.py`: the same pipeline with a snapshot layer
  `snap_` (layer 4), its own snapshot colour and no test colour, and four
  units between layers and 1.2 between slots.
*/
module VisualizeAdvanced {
  import opened Manifest
  import opened Graph
  import opened Counting
  import opened Layout
  import VisualizeLineage

  /** `color_map` of `get_node_color` */
  const COLOR_MAP: map<string, string> := map[
    "seed" := "#90EE90",
    "model" := "#87CEEB",
    "source" := "#FFD700",
    "snapshot" := "#FF69B4"]

  /** `get_node_color`: `color_map.get(node_type, '#D3D3D3')`. */
  function NodeColor(nodeType: string): (color: string)
    ensures color == VisualizeLineage.DEFAULT_COLOR <==> nodeType !in COLOR_MAP
    ensures nodeType in COLOR_MAP ==> color == COLOR_MAP[nodeType]
  {
    if nodeType in COLOR_MAP then COLOR_MAP[nodeType] else VisualizeLineage.DEFAULT_COLOR
  }

  /** Against the basic script: snapshots are hot pink instead of salmon,
      tests fall back to grey, and every other type keeps its colour. */
  lemma ColorsAgainstBasic(nodeType: string)
    ensures nodeType == "snapshot" ==> NodeColor(nodeType) == "#FF69B4" != VisualizeLineage.NodeColor(nodeType)
    ensures nodeType == "test" ==> NodeColor(nodeType) == VisualizeLineage.DEFAULT_COLOR != VisualizeLineage.NodeColor(nodeType)
    ensures nodeType != "snapshot" && nodeType != "test" ==> NodeColor(nodeType) == VisualizeLineage.NodeColor(nodeType)
  {
  }

  /** `get_node_layer`: the basic prefixes, then `snap_` for layer 4; a name
      with none of them goes to layer 2. */
  function NodeLayer(name: string): (layer: int)
    ensures 0 <= layer <= 4
    ensures layer == 4 <==> StartsWith(name, "snap_")
    ensures !StartsWith(name, "snap_") ==> layer == VisualizeLineage.NodeLayer(name)
  {
    SnapExcludesOthers(name);
    if StartsWith(name, "raw_") then 0
    else if StartsWith(name, "stg_") then 1
    else if StartsWith(name, "int_") then 2
    else if StartsWith(name, "dim_") || StartsWith(name, "fct_") then 3
    else if StartsWith(name, "snap_") then 4
    else 2
  }

  /** A name with the `snap_` prefix has none of the other layer prefixes. */
  lemma SnapExcludesOthers(name: string)
    ensures StartsWith(name, "snap_") ==>
      !StartsWith(name, "raw_") && !StartsWith(name, "stg_") && !StartsWith(name, "int_") &&
      !StartsWith(name, "dim_") && !StartsWith(name, "fct_")
  {
    if StartsWith(name, "snap_") {
      assert name[..4] == name[..5][..4] == "snap";
    }
  }

  /** `pos[node] = (x, y)` with `x = layer * 4` and
      `y = (layer_positions[layer] - max_in_layer / 2) * 1.2`. */
  function Place(layer: int, slot: nat, size: nat): Position {
    Position(layer * 4, (slot as real - size as real / 2.0) * 1.2)
  }

  /** The layout loop of `visualize_lineage`. */
  method Positions(g: GraphView) returns (pos: map<Id, Position>, layerCounts: map<int, nat>)
    requires Distinct(g.order)
    ensures layerCounts == Tally(Layers(g, NodeLayer))
    ensures forall v :: v in pos <==> v in g.order
    ensures forall i :: 0 <= i < |g.order| ==> pos[g.order[i]] == PlacedAt(Layers(g, NodeLayer), i, Place)
  {
    pos, layerCounts := AssignPositions(g, NodeLayer, Place);
  }

  /** The first pass counts every vertex once: its counts over the layers
      add up to the number of vertices. */
  lemma LayerCountsTotal(g: GraphView)
    ensures SumOver(Tally(Layers(g, NodeLayer)), [0, 1, 2, 3, 4]) == |g.order|
  {
    var ls := Layers(g, NodeLayer);
    forall l | l in ls ensures l in [0, 1, 2, 3, 4] {
      var i :| 0 <= i < |ls| && ls[i] == l;
    }
    TallyTotal(ls, [0, 1, 2, 3, 4]);
  }

  /** A vertex is drawn in the column of its layer: `x` is 0, 4, 8, 12 or 16. */
  lemma PlacedInColumn(g: GraphView, i: nat)
    requires i < |g.order|
    ensures var x := PlacedAt(Layers(g, NodeLayer), i, Place).x;
      x == 4 * NodeLayer(g.NameOf(g.order[i])) && 0 <= x <= 16
  {
  }

  /** No two vertices are drawn at the same place. */
  lemma PositionsApart(g: GraphView, i: nat, j: nat)
    requires i < j < |g.order|
    ensures var ls := Layers(g, NodeLayer);
      PlacedAt(ls, i, Place) != PlacedAt(ls, j, Place)
  {
    var ls := Layers(g, NodeLayer);
    if ls[i] == ls[j] {
      SlotsIncrease(ls, i, j);
    }
  }
}
