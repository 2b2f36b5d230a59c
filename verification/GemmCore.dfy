/** The compile-time parameters of a GEMM core: tile sizes, rows packed together, element sizes in bytes. */
module GemmCore {
  import opened Utils

  datatype Core = Core(mtile: pos, ntile: pos, ktile: pos, packRow: pos, aSize: pos, bSize: pos, cSize: pos) {
    predicate Valid() {
      ktile % packRow == 0
    }

    /** PREFERRED_N of CoreCodeBase. */
    function PreferredN(): pos {
      ntile * 3
    }
  }
}
