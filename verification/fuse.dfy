/** The rated currents of the grid connection's fuse. */
module Fuses {

  /** Three rated currents in Amperes, one per phase. Being a datatype it is
      immutable, and equality is by value, field by field. */
  datatype Fuse = Fuse(ratedCurrentPhase1: real, ratedCurrentPhase2: real, ratedCurrentPhase3: real)

  /** A fuse with the same rated current on every phase. */
  function UniformFuse(amperes: real): Fuse
  {
    Fuse(amperes, amperes, amperes)
  }

  /** The hash of a fuse: the runtime's hash of the triple of the three
      currents in Amperes, in phase order. The runtime's tuple hash is not
      part of the model, so it is a parameter. */
  function Hash(f: Fuse, tupleHash: (real, real, real) -> int): int
  {
    tupleHash(f.ratedCurrentPhase1, f.ratedCurrentPhase2, f.ratedCurrentPhase3)
  }

  /** Two fuses are equal exactly when their currents agree phase by phase. */
  lemma EqualIffSameCurrents(a: Fuse, b: Fuse)
    ensures a == b <==>
      && a.ratedCurrentPhase1 == b.ratedCurrentPhase1
      && a.ratedCurrentPhase2 == b.ratedCurrentPhase2
      && a.ratedCurrentPhase3 == b.ratedCurrentPhase3
  {
  }

  /** The hash sees only the three currents, in phase order: fuses that agree
      on them hash alike, whatever the tuple hash is. In particular equal
      fuses have equal hashes. */
  lemma HashAgreesWithEquality(a: Fuse, b: Fuse, tupleHash: (real, real, real) -> int)
    requires a.ratedCurrentPhase1 == b.ratedCurrentPhase1
    requires a.ratedCurrentPhase2 == b.ratedCurrentPhase2
    requires a.ratedCurrentPhase3 == b.ratedCurrentPhase3
    ensures a == b
    ensures Hash(a, tupleHash) == Hash(b, tupleHash)
  {
  }
}
