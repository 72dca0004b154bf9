/** What the reclamation schemes hand around: the address of a node of the data structure. */
module Addresses {
  type Node = nat
}
