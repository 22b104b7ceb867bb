module Connections {
  /** Connections are numbered in the order in which they are dialled. */
  type ConnId = nat
}
