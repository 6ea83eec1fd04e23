/** Variants of the rules (Variante.java and its three implementations): how
    many cards each hand is dealt, when the game is over and how many
    trophies are seeded.  The game engine (Parties) never consults a variant:
    it plays the standard rules, which `StandardCommePartie` relates to the
    variant of that name.  A variant has no state, so it is a value here. */
module Variantes {
  import Parties
  import Calculateur

  datatype Variante = Standard | Tactique | Rapide

  /** `VarianteRapide.NB_TOURS_MAX`. */
  const NbToursMax := 4

  /** `getNom`. */
  function Nom(v: Variante): string {
    match v
    case Standard => "Standard"
    case Tactique => "Tactique"
    case Rapide => "Partie Rapide"
  }

  /** `getDescription`. */
  function Description(v: Variante): string {
    match v
    case Standard => "Règles de base du jeu Jest"
    case Tactique => "3 cartes par main"
    case Rapide => "4 tours maximum, paires noires +3, 3 trophées"
  }

  /** `modifierDistribution(tour, numeroTour)`: the cards dealt to each hand;
      neither the round nor its number changes it. */
  function ModifierDistribution(v: Variante, numeroTour: int): nat {
    if v == Tactique then 3 else 2
  }

  /** `verifierFinPartie(piocheVide, numeroTour)`. */
  predicate VerifierFinPartie(v: Variante, piocheVide: bool, numeroTour: int) {
    match v
    case Standard => piocheVide
    case Tactique => piocheVide
    case Rapide => piocheVide || numeroTour >= NbToursMax
  }

  /** `nombreTrophees(nbJoueurs)`. */
  function NombreTrophees(v: Variante, nbJoueurs: int): nat {
    if v == Rapide then 3 else if nbJoueurs == 3 then 2 else 1
  }

  /** `modifierScoring(calculateur)`: a no-op in all three variants; the
      calculator and its visitors keep their state. */
  method ModifierScoring(v: Variante, calculateur: Calculateur.CalculateurScore)
    ensures unchanged(calculateur)
    ensures forall w | w in calculateur.visiteurs :: unchanged(w)
  {
  }

  /** The names tell the variants apart; only the tactical variant deals
      three cards; the quick one seeds the most trophies. */
  lemma Caracteristiques(v: Variante, w: Variante, nbJoueurs: int, numeroTour: int)
    ensures Nom(v) == Nom(w) ==> v == w
    ensures ModifierDistribution(v, numeroTour) == 3 <==> v == Tactique
    ensures ModifierDistribution(v, numeroTour) != 3 ==> ModifierDistribution(v, numeroTour) == 2
    ensures NombreTrophees(Rapide, nbJoueurs) == 3 && NombreTrophees(v, nbJoueurs) <= 3
    ensures v != Rapide ==> NombreTrophees(v, nbJoueurs) == (if nbJoueurs == 3 then 2 else 1)
  {
    if v != w {
      assert Nom(v)[0] != Nom(w)[0] || |Nom(v)| != |Nom(w)|;
    }
  }

  /** The standard variant states the rules the engine plays: two cards per
      hand (as `Tours.Tour.DistribuerCartes` deals), the trophies
      `Parties.Partie.Initialiser` seeds, and the end of the game exactly
      when the pile is empty (`Parties.Partie.VerifierFinPartie`).  The
      tactical variant differs from it only in the deal. */
  lemma StandardCommePartie(nbJoueurs: int, piocheVide: bool, numeroTour: int)
    ensures ModifierDistribution(Standard, numeroTour) == 2
    ensures NombreTrophees(Standard, nbJoueurs) == Parties.NombreTrophees(nbJoueurs)
    ensures VerifierFinPartie(Standard, piocheVide, numeroTour) <==> piocheVide
    ensures ModifierDistribution(Tactique, numeroTour) == ModifierDistribution(Standard, numeroTour) + 1
    ensures NombreTrophees(Tactique, nbJoueurs) == NombreTrophees(Standard, nbJoueurs)
    ensures VerifierFinPartie(Tactique, piocheVide, numeroTour) <==> VerifierFinPartie(Standard, piocheVide, numeroTour)
  {
  }

  /** Every variant ends the game once the pile is empty; only the quick one
      ends it earlier, and it does so from round `NbToursMax` on whatever the
      pile holds.  Its end is monotone in the round number. */
  lemma FinSelonVariante(v: Variante, piocheVide: bool, numeroTour: int, plusTard: int)
    requires numeroTour <= plusTard
    ensures piocheVide ==> VerifierFinPartie(v, piocheVide, numeroTour)
    ensures v != Rapide ==> (VerifierFinPartie(v, piocheVide, numeroTour) <==> piocheVide)
    ensures VerifierFinPartie(Rapide, piocheVide, numeroTour) <==> piocheVide || numeroTour >= NbToursMax
    ensures VerifierFinPartie(v, piocheVide, numeroTour) ==> VerifierFinPartie(Rapide, piocheVide, numeroTour)
    ensures VerifierFinPartie(Rapide, piocheVide, numeroTour) ==> VerifierFinPartie(Rapide, piocheVide, plusTard)
  {
  }

  /** The round at which the `demarrer` loop would stop under variant `v`,
      starting its check at round `numero`: `vides[k]` says whether the pile
      is empty when round `numero + k` is about to start.  When the sequence
      runs out before the end the result is one past its last round. */
  function TourFinal(v: Variante, vides: seq<bool>, numero: int): (fin: int)
    ensures numero <= fin <= numero + |vides|
    ensures forall i | 0 <= i < fin - numero :: !VerifierFinPartie(v, vides[i], numero + i)
    ensures fin < numero + |vides| ==> VerifierFinPartie(v, vides[fin - numero], fin)
    decreases |vides|
  {
    if |vides| == 0 then numero
    else if VerifierFinPartie(v, vides[0], numero) then numero
    else
      var fin := TourFinal(v, vides[1..], numero + 1);
      forall i | 1 <= i < fin - numero
        ensures !VerifierFinPartie(v, vides[i], numero + i)
      {
        assert vides[1..][i - 1] == vides[i];
      }
      fin
  }

  /** Over the same sequence of piles, the quick variant stops no later than
      the standard one, and from round 1 it stops by round `NbToursMax`, so it
      plays at most `NbToursMax - 1` rounds. */
  lemma {:induction false} RapideAuPlusTot(vides: seq<bool>, numero: int)
    ensures TourFinal(Rapide, vides, numero) <= TourFinal(Standard, vides, numero)
    ensures numero <= NbToursMax ==> TourFinal(Rapide, vides, numero) <= NbToursMax
    decreases |vides|
  {
    if |vides| > 0 && !VerifierFinPartie(Rapide, vides[0], numero) {
      RapideAuPlusTot(vides[1..], numero + 1);
    }
  }
}
