/** An axial hex coordinate (HexCoordinates.java). The source class has two
    final fields, value equality and a linear hash, so it is a datatype here:
    its fields can never change after construction. */
module HexCoords {

  datatype HexCoordinates = HexCoordinates(q: int, r: int)

  /** getQ: the q component given to the constructor. */
  function GetQ(h: HexCoordinates): int { h.q }

  /** getR: the r component given to the constructor. */
  function GetR(h: HexCoordinates): int { h.r }

  /** equals: same q component and same r component. */
  predicate Equals(a: HexCoordinates, b: HexCoordinates) {
    a.q == b.q && a.r == b.r
  }

  /** hashCode: 13 * q + 21 * r, on unbounded integers. */
  function HashCode(h: HexCoordinates): int {
    13 * h.q + 21 * h.r
  }

  /** The getters give back exactly what the constructor was given. */
  lemma GettersReturnComponents(q: int, r: int)
    ensures GetQ(HexCoordinates(q, r)) == q && GetR(HexCoordinates(q, r)) == r
  {
  }

  /** equals is the datatype's own equality: it is reflexive, symmetric and
      holds exactly for coordinates built from the same two components. */
  lemma EqualsIsValueEquality(a: HexCoordinates, b: HexCoordinates)
    ensures Equals(a, b) <==> a == b
    ensures Equals(a, b) <==> Equals(b, a)
    ensures Equals(a, a)
  {
  }

  /** The hashCode/equals contract: equal coordinates hash alike. */
  lemma EqualCoordinatesHashAlike(a: HexCoordinates, b: HexCoordinates)
    requires Equals(a, b)
    ensures HashCode(a) == HashCode(b)
  {
  }

  /** The two hash values the source's tests pin down. */
  lemma HashCodeExamples()
    ensures HashCode(HexCoordinates(2, 3)) == 89
    ensures HashCode(HexCoordinates(69, 420)) == 9717
  {
  }

  /** The hash is not injective: distinct coordinates can collide, so equality
      is decided by equals and never by the hash alone. */
  lemma HashCodeCollides()
    ensures HexCoordinates(21, -13) != HexCoordinates(0, 0)
    ensures HashCode(HexCoordinates(21, -13)) == HashCode(HexCoordinates(0, 0))
  {
  }
}
