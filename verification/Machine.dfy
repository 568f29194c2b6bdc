/**
 What several modules share about virtual machines and Go maps.
 */
module Machine {

  /** A host device or GPU entry of a machine: its own name and the resource it asks for. */
  datatype Entry = Entry(name: string, deviceName: string)

  function EntryNames(entries: seq<Entry>): seq<string>
  {
    seq(|entries|, i requires 0 <= i < |entries| => entries[i].name)
  }

  /** `order` visits every key once: an iteration order of a Go map. */
  ghost predicate Enumerates(order: seq<string>, keys: set<string>)
  {
    (forall i, j :: 0 <= i < j < |order| ==> order[i] != order[j]) && (forall k :: k in keys <==> k in order)
  }
}
