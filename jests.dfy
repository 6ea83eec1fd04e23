/** A player's Jest (Jest.java): the cards taken during the game and the
    trophies won at the end, with the counting, searching and visiting loops
    of the Java class, each proved against the card-list function it computes.
 */
module Jests {
  import opened Couleurs
  import opened Resultats
  import opened Cartes
  import opened Score

  /** `Trophee.accepter`: a trophy takes no part in a visit; its effect is
      applied by `appliquerEffetsTrophees` instead. */
  method AccepterTrophee(trophee: Carte, visiteur: Visiteur)
    ensures visiteur.EtatCourant() == old(visiteur.EtatCourant())
  {
  }

  class Jest {
    var cartes: seq<Carte>
    /** The Java list is typed `List<Trophee>`. */
    var trophees: seq<Carte>

    constructor ()
      ensures cartes == [] && trophees == []
    {
      cartes := [];
      trophees := [];
    }

    /** Appends a card; nothing is ever removed from a Jest. */
    method AjouterCarte(carte: Carte)
      modifies this`cartes
      ensures cartes == old(cartes) + [carte] && trophees == old(trophees)
    {
      cartes := cartes + [carte];
    }

    method AjouterTrophee(trophee: Carte)
      requires trophee.genre.Trophee?
      modifies this`trophees
      ensures trophees == old(trophees) + [trophee] && cartes == old(cartes)
    {
      trophees := trophees + [trophee];
    }

    /** `contientJoker`: stops at the first Joker. */
    method ContientJoker() returns (b: bool)
      ensures b <==> exists i | 0 <= i < |cartes| :: cartes[i].EstJoker()
    {
      for i := 0 to |cartes|
        invariant forall j | 0 <= j < i :: !cartes[j].EstJoker()
      {
        if cartes[i].EstJoker() {
          return true;
        }
      }
      return false;
    }

    /** `contientPaireNoire`: scans for a spade and a club of the value. */
    method ContientPaireNoire(valeur: int) returns (b: bool)
      ensures b <==> Cartes.ContientPaireNoire(cartes, valeur)
    {
      var aPique, aTrefle := false, false;
      for i := 0 to |cartes|
        invariant aPique <==> exists j | 0 <= j < i :: cartes[j].GetValeurFaciale() == valeur && cartes[j].GetCouleur() == PIQUE
        invariant aTrefle <==> exists j | 0 <= j < i :: cartes[j].GetValeurFaciale() == valeur && cartes[j].GetCouleur() == TREFLE
      {
        if cartes[i].GetValeurFaciale() == valeur {
          if cartes[i].GetCouleur() == PIQUE {
            aPique := true;
          } else if cartes[i].GetCouleur() == TREFLE {
            aTrefle := true;
          }
        }
      }
      b := aPique && aTrefle;
    }

    /** `compterCartesCouleur`. */
    method CompterCartesCouleur(couleur: Couleur) returns (n: nat)
      ensures n == CompterCouleur(cartes, couleur)
    {
      n := 0;
      for i := 0 to |cartes|
        invariant n == CompterCouleur(cartes[..i], couleur)
      {
        assert cartes[..i + 1][..i] == cartes[..i];
        if cartes[i].GetCouleur() == couleur {
          n := n + 1;
        }
      }
      assert cartes[..|cartes|] == cartes;
    }

    /** `compterCartesValeur`. */
    method CompterCartesValeur(valeur: int) returns (n: nat)
      ensures n == CompterValeur(cartes, valeur)
    {
      n := 0;
      for i := 0 to |cartes|
        invariant n == CompterValeur(cartes[..i], valeur)
      {
        assert cartes[..i + 1][..i] == cartes[..i];
        if cartes[i].GetValeurFaciale() == valeur {
          n := n + 1;
        }
      }
      assert cartes[..|cartes|] == cartes;
    }

    /** The scan shared by the three `getCartePlusHaute*` methods: a retained
        card replaces the kept one when nothing is kept or when it compares
        strictly stronger. */
    method CartePlusHaute(f: Filtre) returns (r: Carte?)
      ensures r == PlusHaute(cartes, f)
    {
      r := null;
      for i := 0 to |cartes|
        invariant r == PlusHaute(cartes[..i], f)
      {
        assert cartes[..i + 1] == cartes[..i] + [cartes[i]];
        PlusHauteAjout(cartes[..i], cartes[i], f);
        var carte := cartes[i];
        if Retenue(f, carte) && (r == null || carte.ComparerForce(r) > 0) {
          r := carte;
        }
      }
      assert cartes[..|cartes|] == cartes;
    }

    /** `getCartePlusHauteCouleur`. */
    method GetCartePlusHauteCouleur(couleur: Couleur) returns (r: Carte?)
      ensures r == PlusHaute(cartes, ParCouleur(couleur))
    {
      r := CartePlusHaute(ParCouleur(couleur));
    }

    /** `getCartePlusHauteValeur`. */
    method GetCartePlusHauteValeur(valeur: int) returns (r: Carte?)
      ensures r == PlusHaute(cartes, ParValeur(valeur))
    {
      r := CartePlusHaute(ParValeur(valeur));
    }

    /** `getCartePlusHauteGlobale`. */
    method GetCartePlusHauteGlobale() returns (r: Carte?)
      ensures r == PlusHaute(cartes, Toutes)
    {
      r := CartePlusHaute(Toutes);
    }

    /** `getCartePlusBasse`: a card of the colour replaces the kept one when
        nothing is kept or when it compares strictly weaker. */
    method GetCartePlusBasse(couleur: Couleur) returns (r: Carte?)
      ensures r == PlusBasse(cartes, couleur)
    {
      r := null;
      for i := 0 to |cartes|
        invariant r == PlusBasse(cartes[..i], couleur)
      {
        assert cartes[..i + 1] == cartes[..i] + [cartes[i]];
        PlusBasseAjout(cartes[..i], cartes[i], couleur);
        var carte := cartes[i];
        if carte.GetCouleur() == couleur && (r == null || carte.ComparerForce(r) < 0) {
          r := carte;
        }
      }
      assert cartes[..|cartes|] == cartes;
    }

    /** `accepterVisiteur`: resets the visitor, makes it visit every card in
        the context of this Jest, then the trophies unless `sansTrophees`, and
        returns its partial score. */
    method AccepterVisiteur(visiteur: Visiteur, sansTrophees: bool) returns (partiel: int)
      modifies visiteur`scorePartiel, visiteur`valeursTraitees
      ensures visiteur.EtatCourant() == Passe(visiteur.regle, cartes, cartes)
      ensures partiel == Passe(visiteur.regle, cartes, cartes).partiel
    {
      visiteur.Reset();
      for i := 0 to |cartes|
        invariant visiteur.EtatCourant() == Passe(visiteur.regle, cartes[..i], cartes)
      {
        assert cartes[..i + 1][..i] == cartes[..i];
        Accepter(cartes[i], visiteur, cartes);
      }
      assert cartes[..|cartes|] == cartes;
      if !sansTrophees {
        for i := 0 to |trophees|
          invariant visiteur.EtatCourant() == Passe(visiteur.regle, cartes, cartes)
        {
          AccepterTrophee(trophees[i], visiteur);
        }
      }
      partiel := visiteur.GetScorePartiel();
    }

    /** `revelerCartes`: every card of the Jest is face up; only the cards'
        visibility changes. */
    method RevelerCartes()
      modifies (set c | c in cartes)`estVisible
      ensures forall c | c in cartes :: c.estVisible
    {
      for i := 0 to |cartes|
        invariant forall j | 0 <= j < i :: cartes[j].estVisible
      {
        cartes[i].Reveler();
      }
    }
  }
}
