/** The card colours (Couleur.java) and the two orders on them.

    Each colour carries a force: PIQUE 4, TREFLE 3, CARREAU 2, COEUR 1,
    SPECIALE 0.  `compareForce` orders colours by force, while Java's
    `Enum.compareTo` orders them by declaration position; since the forces
    decrease along the declaration, the two orders are opposite.
 */
module Couleurs {

  datatype Couleur = PIQUE | TREFLE | CARREAU | COEUR | SPECIALE

  /** Position of the colour in the enum declaration (Java `ordinal()`). */
  function Ordinal(c: Couleur): (o: nat)
    ensures o < 5
  {
    match c
    case PIQUE => 0
    case TREFLE => 1
    case CARREAU => 2
    case COEUR => 3
    case SPECIALE => 4
  }

  /** The force of a colour (`getForce`). */
  function Force(c: Couleur): (f: int)
    ensures 0 <= f <= 4
    ensures f == 4 - Ordinal(c)
  {
    match c
    case PIQUE => 4
    case TREFLE => 3
    case CARREAU => 2
    case COEUR => 1
    case SPECIALE => 0
  }

  /** Java's `Integer.compare`: -1, 0 or 1 according to the order of x and y. */
  function ComparerEntiers(x: int, y: int): (r: int)
    ensures -1 <= r <= 1
    ensures r < 0 <==> x < y
    ensures r == 0 <==> x == y
    ensures r > 0 <==> x > y
  {
    if x < y then -1 else if x == y then 0 else 1
  }

  /** `compareForce`: compares the forces of two colours. */
  function CompareForce(a: Couleur, b: Couleur): (r: int)
    ensures r > 0 <==> Force(a) > Force(b)
    ensures r < 0 <==> Force(a) < Force(b)
    ensures r == 0 <==> a == b
  {
    ComparerEntiers(Force(a), Force(b))
  }

  /** Java's `Enum.compareTo`: the difference of the declaration positions. */
  function CompareTo(a: Couleur, b: Couleur): (r: int)
    ensures r < 0 <==> Ordinal(a) < Ordinal(b)
    ensures r == 0 <==> a == b
  {
    Ordinal(a) - Ordinal(b)
  }

  /** Two colours with the same force are the same colour. */
  lemma ForcesDistinctes(a: Couleur, b: Couleur)
    requires Force(a) == Force(b)
    ensures a == b
  {
  }

  /** Swapping the arguments of `compareForce` negates the result. */
  lemma CompareForceAntisymetrique(a: Couleur, b: Couleur)
    ensures CompareForce(a, b) == -CompareForce(b, a)
  {
  }

  /** `compareForce` is a transitive strict order. */
  lemma CompareForceTransitive(a: Couleur, b: Couleur, c: Couleur)
    requires CompareForce(a, b) > 0 && CompareForce(b, c) > 0
    ensures CompareForce(a, c) > 0
  {
  }

  /** For distinct colours, the force order is the reverse of the declaration
      order: a colour declared earlier is stronger by force but compares as
      smaller under `compareTo`. */
  lemma ForceInverseDeclaration(a: Couleur, b: Couleur)
    requires a != b
    ensures CompareForce(a, b) > 0 <==> CompareTo(a, b) < 0
    ensures CompareForce(a, b) < 0 <==> CompareTo(a, b) > 0
  {
  }
}
