/** Extensions (Extension.java, ExtensionMagique.java): a named set of extra
    cards fixed at construction and appended to a deck on demand.  The only
    extension of the game is "Cartes Magiques", with its four magic cards.

    Java builds the extra cards in the abstract hook `initialiserCartes`,
    which the base constructor calls; here the one concrete extension is a
    named constructor of the class that calls the same hook.
 */
module Extensions {
  import opened Couleurs
  import opened Cartes
  import opened Paquets

  /** The kinds of the magic cards for `nbJoueurs` players: a Multiplicateur,
      a Bouclier and a Chance, then a Malchance for four players only.  Chance
      and Malchance carry a random value drawn in 0..5. */
  ghost predicate MagiquesPour(gs: seq<Genre>, nbJoueurs: int) {
    |gs| == (if nbJoueurs == 4 then 4 else 3)
    && gs[0] == Multiplicateur && gs[1] == Bouclier
    && gs[2].Chance? && 0 <= gs[2].alea <= 5
    && (nbJoueurs == 4 ==> gs[3].Malchance? && 0 <= gs[3].alea <= 5)
  }

  /** The extension holds a Malchance exactly when it is built for four players,
      and it has three or four cards. */
  lemma MalchanceSsiQuatre(gs: seq<Genre>, nbJoueurs: int)
    requires MagiquesPour(gs, nbJoueurs)
    ensures (exists i | 0 <= i < |gs| :: gs[i].Malchance?) <==> nbJoueurs == 4
    ensures 3 <= |gs| <= 4
    ensures forall i | 0 <= i < |gs| :: !gs[i].Joker? && !gs[i].Trophee?
  {
    if nbJoueurs == 4 {
      assert gs[3].Malchance?;
    }
  }

  /** Every magic card is a SPECIALE card of face value 1. */
  lemma MagiquesSpeciales(c: Carte)
    requires c.genre.Multiplicateur? || c.genre.Bouclier? || c.genre.Chance? || c.genre.Malchance?
    ensures c.GetCouleur() == SPECIALE && c.GetValeurFaciale() == 1 && !c.EstJoker()
  {
  }

  /** `CarteMultiplicateur.getValeurEffective` and `CarteBouclier.getValeurEffective`:
      the loop over the Jest that sums the effective values of its spades
      (Multiplicateur) or of its diamonds (Bouclier). */
  method ValeurAgregee(carte: Carte, jest: seq<Carte>) returns (total: int)
    requires carte.genre.Multiplicateur? || carte.genre.Bouclier?
    ensures total == ValeurEffective(carte, jest)
  {
    var couleur := if carte.genre.Multiplicateur? then PIQUE else CARREAU;
    total := 0;
    for i := 0 to |jest|
      invariant total == SommeCouleur(jest[..i], couleur, jest)
    {
      var c := jest[i];
      assert jest[..i + 1][..i] == jest[..i];
      if c.GetCouleur() == couleur {
        ValeurDirecteHorsSpeciale(c, jest);
        total := total + ValeurEffective(c, jest);
      }
    }
    assert jest[..|jest|] == jest;
  }

  const DescriptionMagique: string :=
    "4 cartes spéciales avec effets bonus :\nMultiplicateur --> double les Piques\nBouclier --> annule les Carreaux négatifs\nMalchance --> valeur malus aléatoire\nChance --> valeur bonus aléatoire"

  class Extension {
    const nom: string
    const description: string
    var cartesSupplementaires: seq<Carte>

    /** `new ExtensionMagique(nbJoueurs)`: the base constructor stores the
        name and description, starts an empty list and calls
        `initialiserCartes(nbJoueurs)`. */
    constructor Magique(nbJoueurs: int)
      ensures nom == "Cartes Magiques" && description == DescriptionMagique
      ensures MagiquesPour(Genres(cartesSupplementaires), nbJoueurs)
      ensures forall i | 0 <= i < |cartesSupplementaires| ::
                fresh(cartesSupplementaires[i]) && !cartesSupplementaires[i].estVisible
    {
      nom := "Cartes Magiques";
      description := DescriptionMagique;
      cartesSupplementaires := [];
      new;
      InitialiserCartes(nbJoueurs);
    }

    /** `ExtensionMagique.initialiserCartes`: appends a Multiplicateur, a
        Bouclier and a Chance, then a Malchance when there are four players. */
    method InitialiserCartes(nbJoueurs: int)
      modifies this`cartesSupplementaires
      ensures |cartesSupplementaires| >= |old(cartesSupplementaires)|
      ensures cartesSupplementaires[..|old(cartesSupplementaires)|] == old(cartesSupplementaires)
      ensures MagiquesPour(Genres(cartesSupplementaires[|old(cartesSupplementaires)|..]), nbJoueurs)
      ensures forall i | |old(cartesSupplementaires)| <= i < |cartesSupplementaires| ::
                fresh(cartesSupplementaires[i]) && !cartesSupplementaires[i].estVisible
    {
      var multiplicateur := new Carte(Multiplicateur);
      var bouclier := new Carte(Bouclier);
      var tirage: int :| 0 <= tirage <= 5;
      var chance := new Carte(Chance(tirage));
      var ajout := [multiplicateur, bouclier, chance];
      if nbJoueurs == 4 {
        var malus: int :| 0 <= malus <= 5;
        var malchance := new Carte(Malchance(malus));
        ajout := ajout + [malchance];
      }
      cartesSupplementaires := cartesSupplementaires + ajout;
      assert cartesSupplementaires[|old(cartesSupplementaires)|..] == ajout;
    }

    /** `getCartesSupplementaires`: a copy of the list, as a value, so changing
        it cannot reach the extension. */
    function GetCartesSupplementaires(): (copie: seq<Carte>)
      reads this
      ensures |copie| == |cartesSupplementaires|
      ensures forall i | 0 <= i < |copie| :: copie[i] == cartesSupplementaires[i]
    {
      cartesSupplementaires
    }

    /** `ajouterAuPaquet`: the extra cards go at the end of the deck, in order. */
    method AjouterAuPaquet(paquet: Paquet)
      modifies paquet
      ensures paquet.cartes == old(paquet.cartes) + cartesSupplementaires
    {
      paquet.AjouterCartes(cartesSupplementaires);
    }
  }
}
