/** The score calculator (CalculateurScore.java).

    It owns five visitors, in the order spades, clubs, diamonds, hearts, black
    pairs; the magic-card visitor exists but is not registered.  A score is
    computed by resetting every visitor, letting each visit the Jest, summing
    the partial scores and, unless asked not to, adding each trophy's face
    value.
 */
module Calculateur {
  import opened Couleurs
  import opened Cartes
  import opened Score
  import opened Jests

  /** The rules of the registered visitors, in registration order. */
  const Regles: seq<Regle> := [Piques, Trefles, Carreaux, Coeurs, PairesNoires]

  /** Sum of the partial scores of the visitors of rules `rs` after each has
      visited the cards `cs`. */
  function SommePartiels(rs: seq<Regle>, cs: seq<Carte>): int {
    if rs == [] then 0
    else SommePartiels(rs[..|rs| - 1], cs) + Passe(rs[|rs| - 1], cs, cs).partiel
  }

  /** The base score of a Jest's cards: the sum of the five partials. */
  function ScoreBase(cs: seq<Carte>): int {
    SommePartiels(Regles, cs)
  }

  /** `appliquerEffetsTrophees`: every trophy adds its face value (`getEffetScore`). */
  function BonusTrophees(ts: seq<Carte>): int {
    Somme(ts, (t: Carte) => t.GetValeurFaciale())
  }

  /** `calculerScore(jest, sansTrophees)` as a function of the Jest's contents. */
  function ScoreJest(cs: seq<Carte>, ts: seq<Carte>, sansTrophees: bool): int {
    ScoreBase(cs) + (if sansTrophees then 0 else BonusTrophees(ts))
  }

  class CalculateurScore {
    const visiteurs: seq<Visiteur>

    /** Five distinct visitors, one per registered rule, in order. */
    ghost predicate Valid() {
      |visiteurs| == |Regles|
      && (forall i | 0 <= i < |visiteurs| :: visiteurs[i].regle == Regles[i])
      && (forall i, j | 0 <= i < j < |visiteurs| :: visiteurs[i] != visiteurs[j])
    }

    constructor ()
      ensures Valid()
      ensures forall i | 0 <= i < |visiteurs| :: fresh(visiteurs[i])
    {
      var piques := new Visiteur(Piques);
      var trefles := new Visiteur(Trefles);
      var carreaux := new Visiteur(Carreaux);
      var coeurs := new Visiteur(Coeurs);
      var pairesNoires := new Visiteur(PairesNoires);
      visiteurs := [piques, trefles, carreaux, coeurs, pairesNoires];
    }

    /** `calculerScore(jest)`: the score with trophies. */
    method CalculerScoreAvecTrophees(jest: Jest) returns (score: int)
      requires Valid()
      modifies (set v | v in visiteurs)`scorePartiel, (set v | v in visiteurs)`valeursTraitees
      ensures score == ScoreJest(jest.cartes, jest.trophees, false)
    {
      score := CalculerScore(jest, false);
    }

    /** `calculerScore(jest, sansTrophees)`.  The result depends only on the
        Jest's contents, never on earlier calls, because every visitor is
        reset first. */
    method CalculerScore(jest: Jest, sansTrophees: bool) returns (score: int)
      requires Valid()
      modifies (set v | v in visiteurs)`scorePartiel, (set v | v in visiteurs)`valeursTraitees
      ensures score == ScoreJest(jest.cartes, jest.trophees, sansTrophees)
    {
      for i := 0 to |visiteurs|
        invariant forall k | 0 <= k < i :: visiteurs[k].EtatCourant() == Initial
      {
        visiteurs[i].Reset();
      }
      for i := 0 to |visiteurs|
        invariant forall k | 0 <= k < i :: visiteurs[k].EtatCourant() == Passe(Regles[k], jest.cartes, jest.cartes)
      {
        // The one-argument call of the Java code stands for the two-argument
        // method; trophies do not move any visitor, so the flag is immaterial.
        var _ := jest.AccepterVisiteur(visiteurs[i], false);
      }
      var scoreBase := 0;
      for i := 0 to |visiteurs|
        invariant scoreBase == SommePartiels(Regles[..i], jest.cartes)
      {
        assert Regles[..i + 1][..i] == Regles[..i];
        scoreBase := scoreBase + visiteurs[i].GetScorePartiel();
      }
      assert Regles[..|visiteurs|] == Regles;
      if !sansTrophees {
        scoreBase := AppliquerEffetsTrophees(jest, scoreBase);
      }
      score := scoreBase;
    }

    /** `appliquerEffetsTrophees`. */
    method AppliquerEffetsTrophees(jest: Jest, scoreBase: int) returns (scoreFinal: int)
      ensures scoreFinal == scoreBase + BonusTrophees(jest.trophees)
    {
      scoreFinal := scoreBase;
      for i := 0 to |jest.trophees|
        invariant scoreFinal == scoreBase + BonusTrophees(jest.trophees[..i])
      {
        assert jest.trophees[..i + 1][..i] == jest.trophees[..i];
        scoreFinal := scoreFinal + jest.trophees[i].GetValeurFaciale();
      }
      assert jest.trophees[..|jest.trophees|] == jest.trophees;
    }
  }

  /** The base score in closed form: spades and clubs add their values,
      diamonds subtract theirs, hearts count with the Joker coefficient, and
      every black-pair value earns 2. */
  lemma ScoreFormeClose(cs: seq<Carte>)
    ensures ScoreBase(cs) ==
              SommeNormales(cs, PIQUE, cs) + SommeNormales(cs, TREFLE, cs) - SommeNormales(cs, CARREAU, cs)
              + CoefficientCoeurs(cs) * SommeNormales(cs, COEUR, cs)
              + 2 * |ValeursPaires(cs, cs)|
  {
    PasseAdditive(cs, cs);
    PasseCoeurs(cs);
    PassePairesNoires(cs, cs);
    ScoreBaseDeplie(cs);
  }

  /** The base score is the sum of the five registered partials. */
  lemma ScoreBaseDeplie(cs: seq<Carte>)
    ensures ScoreBase(cs) ==
              Passe(Piques, cs, cs).partiel + Passe(Trefles, cs, cs).partiel + Passe(Carreaux, cs, cs).partiel
              + Passe(Coeurs, cs, cs).partiel + Passe(PairesNoires, cs, cs).partiel
  {
    var r1, r2, r3, r4 := [Piques], [Piques, Trefles], [Piques, Trefles, Carreaux], [Piques, Trefles, Carreaux, Coeurs];
    assert r1[..0] == [] && r2[..1] == r1 && r3[..2] == r2 && r4[..3] == r3 && Regles[..4] == r4;
    assert SommePartiels(r1, cs) == Passe(Piques, cs, cs).partiel;
    assert SommePartiels(r2, cs) == SommePartiels(r1, cs) + Passe(Trefles, cs, cs).partiel;
    assert SommePartiels(r3, cs) == SommePartiels(r2, cs) + Passe(Carreaux, cs, cs).partiel;
    assert SommePartiels(r4, cs) == SommePartiels(r3, cs) + Passe(Coeurs, cs, cs).partiel;
  }

  /** A trophy raises the score by exactly its face value, whatever its condition. */
  lemma TropheeAjouteSaValeur(cs: seq<Carte>, ts: seq<Carte>, t: Carte)
    ensures ScoreJest(cs, ts + [t], false) == ScoreJest(cs, ts, false) + t.GetValeurFaciale()
  {
    assert (ts + [t])[..|ts|] == ts;
  }

  /** Without trophies the score is the base score, whatever the trophies. */
  lemma SansTropheesScoreBase(cs: seq<Carte>, ts: seq<Carte>)
    ensures ScoreJest(cs, ts, true) == ScoreBase(cs)
  {
  }

  /** A spade two and a club two: 2 + 2, plus 2 for the black pair. */
  lemma PaireNoireDeDeux(a: Carte, b: Carte)
    requires a.genre == Normale(PIQUE, 2) && b.genre == Normale(TREFLE, 2)
    ensures ScoreBase([a, b]) == 6
  {
    var cs := [a, b];
    ScoreBaseDeplie(cs);
    assert cs[..1] == [a] && [a][..0] == [];
    assert ContientPaireNoire(cs, 2) by {
      assert cs[0].GetValeurFaciale() == 2 && cs[0].GetCouleur() == PIQUE;
      assert cs[1].GetValeurFaciale() == 2 && cs[1].GetCouleur() == TREFLE;
    }
    forall r: Regle
      ensures Passe(r, cs, cs) == Accepte(r, Accepte(r, Initial, a, cs), b, cs)
    {
      assert Passe(r, [a], cs) == Accepte(r, Initial, a, cs);
    }
    assert Passe(Piques, cs, cs).partiel == 2;
    assert Passe(Trefles, cs, cs).partiel == 2;
    assert Passe(Carreaux, cs, cs).partiel == 0;
    assert Passe(Coeurs, cs, cs).partiel == 0;
    assert Passe(PairesNoires, cs, cs).partiel == 2;
  }
}
