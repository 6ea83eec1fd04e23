/** Two places where the code does not do what its own comments and the
    rules of Jest say, each stated twice: as written (the behaviour the rest
    of the model follows, since it models the code) and as evidently
    intended, with the intended property proved.

    1. `Paquet.initialiser` loops over every `Couleur`, SPECIALE included,
       so the deck has 21 cards instead of 16 plus the Joker.  With three
       players the pile of 19 goes 13, 10, 7, 4, 1 and runs short in the
       sixth round.
    2. The Joker is a heart (`super(Couleur.COEUR, 0)`), and every heart
       count of `VisiteurCoeurs` includes it: the "Joker alone, +4" branch
       can never fire, and a Jest with the Joker and four hearts counts
       five hearts.
 */
module Constats {
  import opened Couleurs
  import opened Resultats
  import opened Cartes
  import opened Score
  import opened Calculateur
  import Paquets
  import Parties

  // ---------------------------------------------------------------------
  // 1. The size of the deck

  /** As written: 21 cards.  Three players seed two trophies and leave a
      pile of 19, which fails a round (19 - 6 is not a multiple of 3); four
      players seed one and leave 20, which lasts four rounds. */
  lemma PaquetEcrit()
    ensures |Paquets.GenresInitiaux()| == 21
    ensures Parties.Deroulement(|Paquets.GenresInitiaux()| - Parties.NombreTrophees(3), 3, 1) == Echec(EtatIllegal)
    ensures Parties.Deroulement(|Paquets.GenresInitiaux()| - Parties.NombreTrophees(4), 4, 1) == Ok(5)
  {
    Paquets.PaquetInitial(Joker);
    Parties.DeroulementPartie(4, 1, 3);
    Parties.DeroulementPartie(3, 0, 4);
  }

  /** The four colours of the rules. */
  const CouleursDuJeu: seq<Couleur> := [PIQUE, TREFLE, CARREAU, COEUR]

  /** As intended: the Ace, 2, 3 and 4 of the four colours, then the Joker. */
  function GenresCorriges(): seq<Genre> {
    Paquets.GenresDe(CouleursDuJeu) + [Joker]
  }

  /** The corrected deck has 17 cards of distinct kinds, no SPECIALE card,
      and with three or four players its pile is used up exactly, the game
      ending with the round counter at 5 (three players) or 4 (four). */
  lemma PaquetCorrige(g: Genre, n: int)
    requires n == 3 || n == 4
    ensures |GenresCorriges()| == 17
    ensures Paquets.GenresDistincts(GenresCorriges())
    ensures g in GenresCorriges() <==> g == Joker || Paquets.GenreDeCouleur(g, CouleursDuJeu)
    ensures Parties.Deroulement(|GenresCorriges()| - Parties.NombreTrophees(n), n, 1) == Ok(if n == 3 then 5 else 4)
  {
    Paquets.GenresDeContenu(CouleursDuJeu, g);
    Paquets.GenresDeContenu(CouleursDuJeu, Joker);
    Paquets.GenresDeDistincts(CouleursDuJeu);
    if n == 3 {
      Parties.DeroulementPartie(3, 0, 3);
    } else {
      Parties.DeroulementPartie(2, 0, 4);
    }
  }

  // ---------------------------------------------------------------------
  // 2. The Joker counted among the hearts

  /** As written: a Jest holding only the Joker scores 0, not the 4 of the
      "Joker seul" branch. */
  lemma JokerSeulEcrit(j: Carte)
    requires j.genre.Joker?
    ensures ScoreBase([j]) == 0
  {
    var cs := [j];
    ScoreFormeClose(cs);
    assert cs[..0] == [];
    assert ValeursPaires(cs, cs) == {} by {
      assert !CompteUnePaire(cs[0], cs);
    }
    forall couleur: Couleur
      ensures SommeNormales(cs, couleur, cs) == 0
    {
      assert Somme(cs, (x: Carte) => if EstNormale(x) && x.GetCouleur() == couleur then ValeurEffective(x, cs) else 0)
          == Somme([], (x: Carte) => if EstNormale(x) && x.GetCouleur() == couleur then ValeurEffective(x, cs) else 0) + 0;
    }
  }

  /** The hearts of a Jest other than the Joker. */
  function CoeursSansJoker(jest: seq<Carte>): nat {
    Compter(jest, (x: Carte) => x.GetCouleur() == COEUR && !x.EstJoker())
  }

  /** One visit of the heart visitor with the hearts counted without the
      Joker. */
  function VisiteCoeursCorrigee(partiel: int, carte: Carte, jest: seq<Carte>): int {
    var n := CoeursSansJoker(jest);
    if carte.genre.Joker? then
      if n == 0 then partiel + 4 else partiel
    else if !EstNormale(carte) || carte.GetCouleur() != COEUR || !ContientJoker(jest) then partiel
    else if 1 <= n <= 3 then partiel - ValeurEffective(carte, jest)
    else if n == 4 then partiel + ValeurEffective(carte, jest)
    else partiel
  }

  /** The corrected heart visitor's score after visiting `cs` in order. */
  function PasseCoeursCorrigee(cs: seq<Carte>, jest: seq<Carte>): int {
    if cs == [] then 0
    else VisiteCoeursCorrigee(PasseCoeursCorrigee(cs[..|cs| - 1], jest), cs[|cs| - 1], jest)
  }

  /** The corrected base score: the heart visitor's partial replaced by the
      corrected one. */
  function ScoreBaseCorrige(cs: seq<Carte>): int {
    ScoreBase(cs) - Passe(Coeurs, cs, cs).partiel + PasseCoeursCorrigee(cs, cs)
  }

  /** The coefficient of the hearts once the Joker is not among them. */
  function CoefficientCorrige(jest: seq<Carte>): int {
    if !ContientJoker(jest) then 0
    else
      var n := CoeursSansJoker(jest);
      if 1 <= n <= 3 then -1 else if n == 4 then 1 else 0
  }

  lemma {:induction false} PasseCoeursCorrigeePartielle(cs: seq<Carte>, jest: seq<Carte>)
    ensures PasseCoeursCorrigee(cs, jest) ==
              CoefficientCorrige(jest) * SommeNormales(cs, COEUR, jest)
              + (if CoeursSansJoker(jest) == 0 then 4 * CompterJokers(cs) else 0)
  {
    if cs != [] {
      PasseCoeursCorrigeePartielle(cs[..|cs| - 1], jest);
    }
  }

  /** Without a heart other than the Joker, no normal heart adds anything. */
  lemma {:induction false} SansCoeurSommeNulle(cs: seq<Carte>, jest: seq<Carte>)
    requires CoeursSansJoker(cs) == 0
    ensures SommeNormales(cs, COEUR, jest) == 0
  {
    if cs != [] {
      var debut := cs[..|cs| - 1];
      assert forall i | 0 <= i < |debut| :: debut[i] == cs[i];
      SansCoeurSommeNulle(debut, jest);
      assert !(cs[|cs| - 1].GetCouleur() == COEUR && !cs[|cs| - 1].EstJoker());
    }
  }

  /** As intended, for a Jest holding the Joker: +4 with no other heart,
      minus the hearts' values with one to three, plus them with four; and
      nothing for the hearts of a Jest without the Joker. */
  lemma CoeursCorriges(jest: seq<Carte>)
    ensures !ContientJoker(jest) ==> PasseCoeursCorrigee(jest, jest) == 0
    ensures CompterJokers(jest) == 1 && CoeursSansJoker(jest) == 0 ==> PasseCoeursCorrigee(jest, jest) == 4
    ensures ContientJoker(jest) && 1 <= CoeursSansJoker(jest) <= 3 ==>
              PasseCoeursCorrigee(jest, jest) == -SommeNormales(jest, COEUR, jest)
    ensures ContientJoker(jest) && CoeursSansJoker(jest) == 4 ==>
              PasseCoeursCorrigee(jest, jest) == SommeNormales(jest, COEUR, jest)
  {
    PasseCoeursCorrigeePartielle(jest, jest);
    if CoeursSansJoker(jest) == 0 {
      SansCoeurSommeNulle(jest, jest);
    }
    if !ContientJoker(jest) {
      assert CompterJokers(jest) == 0;
    }
  }

  /** As intended: the Jest holding only the Joker scores 4. */
  lemma JokerSeulCorrige(j: Carte)
    requires j.genre.Joker?
    ensures ScoreBaseCorrige([j]) == 4
  {
    var cs := [j];
    JokerSeulEcrit(j);
    assert cs[..0] == [];
    assert Passe(Coeurs, cs, cs).partiel == 0 by {
      PasseCoeurs(cs);
      assert CompterCouleur(cs, COEUR) == 1;
    }
    assert CoeursSansJoker(cs) == 0;
    assert PasseCoeursCorrigee(cs, cs) == VisiteCoeursCorrigee(0, j, cs) == 4;
  }
}
