/**
 * The pieces of the NDN and state-vector-sync libraries that the logger consumes:
 * hierarchical names, byte payloads, and the `MissingData` ranges the sync
 * transport hands to its missing-data callbacks.
 */
module Ndn {
  import opened Wrappers

  /** One name component, already in its string form (`Component.to_str`). */
  type Component = string

  /** A `FormalName`: a list of components. Its string form is treated as the name itself. */
  type Name = seq<Component>

  type Bytes = seq<bv8>

  /** A missing-data notification: producer `nid` published `lowSeqno..highSeqno` (inclusive). */
  datatype MissingData = MissingData(nid: Name, lowSeqno: int, highSeqno: int)

  /** Python truthiness of a fetched payload: `None` and the empty payload are both false. */
  predicate Delivers<T>(payload: Option<seq<T>>)
  {
    payload.Some? && |payload.value| > 0
  }
}
