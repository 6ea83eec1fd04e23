/** Outcome types shared by the whole model.

    The Java code signals misuse with IllegalStateException and
    IllegalArgumentException, with a NullPointerException in two
    tie-breaking rules, and with an IndexOutOfBoundsException when a round
    has too few cards to deal.  Each of these becomes an explicit error value, so that
    the error paths are part of the model rather than excluded by preconditions.
 */
module Resultats {

  /** A value that may be absent: stands for a Java reference that may be null. */
  datatype Option<+T> = None | Some(valeur: T)

  /** The exceptions the game model can throw. */
  datatype Erreur =
    | EtatIllegal       // IllegalStateException
    | ArgumentIllegal   // IllegalArgumentException
    | ReferenceNulle    // NullPointerException
    | IndiceHorsBornes  // IndexOutOfBoundsException

  /** The result of an operation that returns a value or throws. */
  datatype Resultat<+T> = Ok(valeur: T) | Echec(erreur: Erreur)

  /** The result of an operation that returns nothing or throws. */
  datatype Statut = Reussi | Echoue(erreur: Erreur)
}
