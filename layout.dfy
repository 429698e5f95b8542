/**
  The layered layout of `visualize_lineage`: a first pass counts the
  vertices of each layer, a second gives each vertex, in node order, the
  next free slot of its layer and a position computed from its layer, its
  slot and the size of its layer. Both static scripts use it, each with its
  own layer function and spacings (`place`).
*/
module Layout {
  import opened Manifest
  import opened Graph
  import opened Counting

  /** `pos[node] = (x, y)` */
  datatype Position = Position(x: int, y: real)

  /** The layer of each vertex, in node order: the layer function applied
      to `G.nodes[node].get('name', node)`. */
  function Layers(g: GraphView, layerOf: string -> int): (ls: seq<int>)
    ensures |ls| == |g.order|
    ensures forall i :: 0 <= i < |g.order| ==> ls[i] == layerOf(g.NameOf(g.order[i]))
  {
    seq(|g.order|, i requires 0 <= i < |g.order| => layerOf(g.NameOf(g.order[i])))
  }

  /** The slot of the `i`-th vertex: how many earlier vertices share its layer. */
  function SlotAt(ls: seq<int>, i: nat): nat
    requires i < |ls|
  {
    multiset(ls[..i])[ls[i]]
  }

  /** The number of vertices in the layer of the `i`-th vertex. */
  function SizeAt(ls: seq<int>, i: nat): nat
    requires i < |ls|
  {
    multiset(ls)[ls[i]]
  }

  /** The position the second pass gives the `i`-th vertex: from its layer,
      its slot and the size of its layer. */
  function PlacedAt(ls: seq<int>, i: nat, place: (int, nat, nat) -> Position): Position
    requires i < |ls|
  {
    place(ls[i], SlotAt(ls, i), SizeAt(ls, i))
  }

  /** The layout loop: count the vertices of each layer, then place them. */
  method AssignPositions(g: GraphView, layerOf: string -> int, place: (int, nat, nat) -> Position)
      returns (pos: map<Id, Position>, layerCounts: map<int, nat>)
    requires Distinct(g.order)
    ensures layerCounts == Tally(Layers(g, layerOf))
    ensures forall v :: v in pos <==> v in g.order
    ensures forall i :: 0 <= i < |g.order| ==> pos[g.order[i]] == PlacedAt(Layers(g, layerOf), i, place)
  {
    layerCounts := CountLayers(g, layerOf);
    pos := PlaceVertices(g, layerOf, layerCounts, place, Layers(g, layerOf));
  }

  /** The first pass: `layer_counts[layer] = layer_counts.get(layer, 0) + 1`
      for each vertex, in node order. */
  method CountLayers(g: GraphView, layerOf: string -> int) returns (layerCounts: map<int, nat>)
    ensures layerCounts == Tally(Layers(g, layerOf))
  {
    layerCounts := map[];
    for i := 0 to |g.order|
      invariant layerCounts == Tally(Layers(g, layerOf)[..i])
    {
      var layer := layerOf(g.NameOf(g.order[i]));
      CountStep(g, layerOf, i);
      layerCounts := layerCounts[layer := (if layer in layerCounts then layerCounts[layer] else 0) + 1];
    }
    assert Layers(g, layerOf)[..|g.order|] == Layers(g, layerOf);
  }

  /** The second pass: each vertex, in node order, takes the next slot of its
      layer, `layer_positions[layer]`, and is placed from its layer, that
      slot and its layer's count. `ls` names the layers of the vertices. */
  method PlaceVertices(g: GraphView, layerOf: string -> int, layerCounts: map<int, nat>, place: (int, nat, nat) -> Position, ghost ls: seq<int>)
      returns (pos: map<Id, Position>)
    requires Distinct(g.order)
    requires ls == Layers(g, layerOf) && layerCounts == Tally(ls)
    ensures forall v :: v in pos <==> v in g.order
    ensures forall i :: 0 <= i < |g.order| ==> pos[g.order[i]] == PlacedAt(ls, i, place)
  {
    pos := map[];
    var layerPositions: map<int, nat> := map[];
    for i := 0 to |g.order|
      invariant Placed(g.order, ls, place, pos, layerPositions, i)
    {
      var node := g.order[i];
      var layer := layerOf(g.NameOf(node));
      ghost var placed, seen := pos, layerPositions;
      if layer !in layerPositions {
        layerPositions := layerPositions[layer := 0];
      }
      ghost var ready := layerPositions;
      LayerSize(ls, i);
      var slot, size := layerPositions[layer], layerCounts[layer];
      pos := pos[node := place(layer, slot, size)];
      layerPositions := layerPositions[layer := slot + 1];
      PlaceStep(g.order, ls, place, placed, seen, ready, pos, layerPositions, i, layer, slot, size);
    }
    PlacedAll(g.order, ls, place, pos, layerPositions);
  }

  /** The state of the second pass after `i` vertices: `layerPositions`
      holds the number placed so far per layer, and `pos` the positions of
      the first `i` vertices. */
  ghost predicate Placed(order: seq<Id>, ls: seq<int>, place: (int, nat, nat) -> Position, pos: map<Id, Position>, layerPositions: map<int, nat>, i: nat)
  {
    && i <= |order| == |ls|
    && (forall k :: Get(layerPositions, k) == multiset(ls[..i])[k])
    && (forall v :: v in pos <==> v in order[..i])
    && (forall j :: 0 <= j < i ==> pos[order[j]] == PlacedAt(ls, j, place))
  }

  /** Placing the `i`-th vertex, of layer `layer`, at slot `slot` of a layer
      of `size` vertices moves the second pass on by one: `ready` is the slot
      dict once the layer has an entry, `pos'` and `layerPositions'` the
      dicts after the vertex is placed. */
  lemma PlaceStep(order: seq<Id>, ls: seq<int>, place: (int, nat, nat) -> Position,
                  pos: map<Id, Position>, seen: map<int, nat>, ready: map<int, nat>,
                  pos': map<Id, Position>, layerPositions': map<int, nat>, i: nat, layer: int, slot: nat, size: nat)
    requires Distinct(order) && i < |order| && Placed(order, ls, place, pos, seen, i)
    requires layer == ls[i] && slot == Get(seen, layer) && size == multiset(ls)[layer]
    requires ready == if layer in seen then seen else seen[layer := 0]
    requires pos' == pos[order[i] := place(layer, slot, size)]
    requires layerPositions' == ready[layer := slot + 1]
    ensures Placed(order, ls, place, pos', layerPositions', i + 1)
  {
    SlotsStep(ls, seen, ready, layerPositions', i);
    PlaceNext(order, ls, pos, i, place);
    KeysStep(order, pos, pos', i);
  }

  /** The next slot of a layer is the number of its vertices placed so far. */
  lemma SlotsStep(ls: seq<int>, seen: map<int, nat>, ready: map<int, nat>, next: map<int, nat>, i: nat)
    requires i < |ls|
    requires forall k :: Get(seen, k) == multiset(ls[..i])[k]
    requires ready == if ls[i] in seen then seen else seen[ls[i] := 0]
    requires next == ready[ls[i] := Get(seen, ls[i]) + 1]
    ensures forall k :: Get(next, k) == multiset(ls[..i + 1])[k]
  {
    SlotStep(ls, i);
  }

  /** One more vertex placed: its id joins the keys. */
  lemma KeysStep(order: seq<Id>, pos: map<Id, Position>, next: map<Id, Position>, i: nat)
    requires i < |order|
    requires forall v :: v in pos <==> v in order[..i]
    requires next.Keys == pos.Keys + {order[i]}
    ensures forall v :: v in next <==> v in order[..i + 1]
  {
    assert order[..i + 1] == order[..i] + [order[i]];
  }

  /** The second pass ends with every vertex placed. */
  lemma PlacedAll(order: seq<Id>, ls: seq<int>, place: (int, nat, nat) -> Position, pos: map<Id, Position>, layerPositions: map<int, nat>)
    requires Placed(order, ls, place, pos, layerPositions, |order|)
    ensures forall v :: v in pos <==> v in order
    ensures forall i :: 0 <= i < |order| ==> pos[order[i]] == PlacedAt(ls, i, place)
  {
    assert order[..|order|] == order;
  }

  /** The count of the `i`-th vertex's layer is the size of that layer. */
  lemma LayerSize(ls: seq<int>, i: nat)
    requires i < |ls|
    ensures ls[i] in Tally(ls) && Tally(ls)[ls[i]] == SizeAt(ls, i)
  {
    assert ls[i] in ls;
  }

  /** The first pass counts one more vertex of the `i`-th vertex's layer. */
  lemma CountStep(g: GraphView, layerOf: string -> int, i: nat)
    requires i < |g.order|
    ensures var ls, layer := Layers(g, layerOf), layerOf(g.NameOf(g.order[i]));
      Tally(ls[..i + 1]) == Bump(Tally(ls[..i]), layer)
  {
    var ls := Layers(g, layerOf);
    assert ls[..i + 1] == ls[..i] + [ls[i]];
    TallySnoc(ls[..i], ls[i]);
  }

  /** The second pass hands out one more slot of the `i`-th vertex's layer. */
  lemma SlotStep(ls: seq<int>, i: nat)
    requires i < |ls|
    ensures multiset(ls[..i + 1]) == multiset(ls[..i]) + multiset{ls[i]}
  {
    assert ls[..i + 1] == ls[..i] + [ls[i]];
  }

  /** Recording the `i`-th position keeps the earlier ones. */
  lemma PlaceNext(order: seq<Id>, ls: seq<int>, pos: map<Id, Position>, i: nat, place: (int, nat, nat) -> Position)
    requires Distinct(order) && i < |order| == |ls|
    requires forall j :: 0 <= j < i ==> order[j] in pos && pos[order[j]] == PlacedAt(ls, j, place)
    ensures forall j :: 0 <= j <= i ==> pos[order[i] := PlacedAt(ls, i, place)][order[j]] == PlacedAt(ls, j, place)
  {
  }

  /** A vertex's slot is below the size of its layer. */
  lemma SlotInRange(ls: seq<int>, i: nat)
    requires i < |ls|
    ensures SlotAt(ls, i) < SizeAt(ls, i)
  {
    assert ls == ls[..i] + ls[i..];
    assert ls[i..][0] == ls[i];
  }

  /** Within a layer, slots grow in node order, so no two vertices of one
      layer share a slot. */
  lemma SlotsIncrease(ls: seq<int>, i: nat, j: nat)
    requires i < j < |ls| && ls[i] == ls[j]
    ensures SlotAt(ls, i) < SlotAt(ls, j)
    ensures SizeAt(ls, i) == SizeAt(ls, j)
  {
    assert ls[..j] == ls[..i] + [ls[i]] + ls[i + 1..j];
  }
}
