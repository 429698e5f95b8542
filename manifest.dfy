/**
  The part of a dbt `manifest.json` that the lineage scripts read, as an
  already-parsed value. JSON parsing itself is not modelled: a missing key
  is `None`, a present key is `Some`.
*/
module Manifest {

  datatype Option<+T> = None | Some(value: T) {
    /** Python's `d.get(key, default)` once the key's presence is known. */
    function GetOr(default: T): T {
      match this
      case Some(v) => v
      case None => default
    }
  }

  /** A manifest unique id such as `model.demo.stg_orders`. */
  type Id = string

  /** A JSON object as Python's `json.load` returns it: a dict that remembers
      the order in which its keys were inserted. */
  datatype OrderedMap<V> = OrderedMap(keys: seq<Id>, entries: map<Id, V>)

  /** No element occurs twice. */
  ghost predicate Distinct<T>(s: seq<T>) {
    forall i, j :: 0 <= i < j < |s| ==> s[i] != s[j]
  }

  /** Python's `str.startswith`. */
  predicate StartsWith(s: string, prefix: string) {
    |prefix| <= |s| && s[..|prefix|] == prefix
  }

  /** A dict: every key once, in insertion order, each with its value. */
  type Dict<V> = d: OrderedMap<V> | Distinct(d.keys) && (forall k :: k in d.entries <==> k in d.keys)
    witness OrderedMap([], map[])

  /** `depends_on` of a manifest node; only its `nodes` list is read. */
  datatype DependsOn = DependsOn(nodes: Option<seq<Id>>)

  /** An entry of `manifest['nodes']` (models, seeds, snapshots, tests, ...). */
  datatype NodeEntry = NodeEntry(
    name: Option<string>,
    resourceType: Option<string>,
    description: Option<string>,
    dependsOn: Option<DependsOn>)

  /** An entry of `manifest['sources']`; only its `name` is read. */
  datatype SourceEntry = SourceEntry(name: Option<string>)

  datatype Manifest = Manifest(nodes: Option<Dict<NodeEntry>>, sources: Option<Dict<SourceEntry>>)

  /** `manifest.get('nodes', {})` */
  function NodesOf(m: Manifest): Dict<NodeEntry> {
    m.nodes.GetOr(OrderedMap([], map[]))
  }

  /** `manifest.get('sources', {})` */
  function SourcesOf(m: Manifest): Dict<SourceEntry> {
    m.sources.GetOr(OrderedMap([], map[]))
  }

  /** `node_data.get('depends_on', {}).get('nodes', [])`: the ids a node
      declares as its parents. */
  function Parents(e: NodeEntry): seq<Id> {
    match e.dependsOn
    case None => []
    case Some(d) => d.nodes.GetOr([])
  }
}
