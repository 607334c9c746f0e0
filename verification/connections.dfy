/** A directed power-flow connection between two microgrid components,
    identified by their component ids. */
module Connections {

  datatype Connection = Connection(start: int, end: int) {

    /** A connection that starts and ends at the same component is refused
        when a component graph is populated. */
    predicate IsValid() {
      start != end
    }
  }
}
