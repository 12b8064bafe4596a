/** Linked lists as the sequences of their nodes. */
module Chains {

  /** Element i of a list, and what ends a list beyond its ends. */
  ghost function At<T>(nodes: seq<T>, i: int, end: T): T {
    if 0 <= i < |nodes| then nodes[i] else end
  }
}
