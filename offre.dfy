/** A player's offer for one round (Offre.java): a visible slot and a hidden
    slot, each holding a card or nothing.  Takers empty the slots one at a time.
 */
module Offres {
  import opened Resultats
  import opened Cartes
  import opened Joueurs

  /** The contents of the two slots of an offer. */
  datatype Emplacements = Emplacements(visible: Carte?, cachee: Carte?) {
    predicate Complet() {
      visible != null && cachee != null
    }

    /** The cards held, the visible one first. */
    function Cartes(): (cs: seq<Carte>)
      ensures |cs| <= 2
      ensures |cs| == 0 <==> visible == null && cachee == null
      ensures |cs| == 2 <==> Complet()
      ensures |cs| == 1 <==> Unique()
      ensures forall i | 0 <= i < |cs| :: cs[i] == visible || cs[i] == cachee
      ensures visible != null ==> cs[0] == visible
      ensures cachee != null ==> cs[|cs| - 1] == cachee
    {
      (if visible != null then [visible] else []) + (if cachee != null then [cachee] else [])
    }

    /** Exactly one slot holds a card. */
    predicate Unique() {
      (visible == null) != (cachee == null)
    }

    /** One of the slots holds the card `c`. */
    predicate Tient(c: Carte?) {
      c != null && (c == visible || c == cachee)
    }

    /** The slots `apres` are these with one slot emptied. */
    predicate PerdUne(apres: Emplacements) {
      (apres.visible == null && apres.cachee == cachee) || (apres.visible == visible && apres.cachee == null)
    }

    /** The slots once `prise` has been taken: the visible slot is emptied
        if it holds the card, else the hidden slot if it does. */
    function Sans(prise: Carte?): Emplacements {
      if prise == visible then Emplacements(null, cachee)
      else if prise == cachee then Emplacements(visible, null)
      else this
    }
  }

  /** Taking a card held in the slots empties one slot, removing that one
      card and keeping the others; from a complete offer it leaves exactly
      one card.  Taking a
      card that is not there changes nothing. */
  lemma SansRetire(e: Emplacements, prise: Carte?)
    ensures e.Tient(prise) ==> multiset(e.Sans(prise).Cartes()) + multiset{prise} == multiset(e.Cartes())
    ensures e.Tient(prise) ==> e.PerdUne(e.Sans(prise))
    ensures e.Tient(prise) && e.Complet() ==> e.Sans(prise).Unique()
    ensures !e.Tient(prise) ==> e.Sans(prise) == e
  {
    if e.Tient(prise) && e.visible == prise && e.cachee != null {
      assert e.Cartes() == [prise, e.cachee];
      assert e.Sans(prise).Cartes() == [e.cachee];
    }
  }

  class Offre {
    var carteVisible: Carte?
    var carteCachee: Carte?
    const proprietaire: Joueur

    /** A new offer belongs to `proprietaire` and has both slots empty. */
    constructor (proprietaire: Joueur)
      ensures this.proprietaire == proprietaire
      ensures carteVisible == null && carteCachee == null
    {
      this.proprietaire := proprietaire;
      carteVisible := null;
      carteCachee := null;
    }

    /** `ajouterCarte(carte, visible)`: fails with IllegalStateException,
        changing nothing, when the chosen slot is taken; otherwise turns the
        card face up (visible slot) or face down (hidden slot) and stores it.
        The other slot is never touched. */
    method AjouterCarte(carte: Carte, visible: bool) returns (s: Statut)
      modifies this`carteVisible, this`carteCachee, carte`estVisible
      ensures s.Echoue? <==> (if visible then old(carteVisible) else old(carteCachee)) != null
      ensures s.Echoue? ==> s.erreur == EtatIllegal && carte.estVisible == old(carte.estVisible)
      ensures s.Echoue? || !visible ==> carteVisible == old(carteVisible)
      ensures s.Echoue? || visible ==> carteCachee == old(carteCachee)
      ensures s.Reussi? && visible ==> carteVisible == carte && carte.estVisible
      ensures s.Reussi? && !visible ==> carteCachee == carte && !carte.estVisible
    {
      if visible {
        if carteVisible != null {
          return Echoue(EtatIllegal);
        }
        carte.Reveler();
        carteVisible := carte;
      } else {
        if carteCachee != null {
          return Echoue(EtatIllegal);
        }
        carte.Cacher();
        carteCachee := carte;
      }
      s := Reussi;
    }

    /** `retirerCarte(carte)`: the card, compared by identity, is looked for
        in the visible slot first, then in the hidden one; the slot holding it
        is emptied and the card returned.  A card in neither slot fails with
        IllegalArgumentException.  The other slot is never touched. */
    method RetirerCarte(carte: Carte?) returns (r: Resultat<Carte?>)
      modifies this`carteVisible, this`carteCachee
      ensures carte == old(carteVisible) ==>
                r == Ok(carte) && carteVisible == null && carteCachee == old(carteCachee)
      ensures carte != old(carteVisible) && carte == old(carteCachee) ==>
                r == Ok(carte) && carteCachee == null && carteVisible == old(carteVisible)
      ensures carte != old(carteVisible) && carte != old(carteCachee) ==>
                r == Echec(ArgumentIllegal) && carteVisible == old(carteVisible) && carteCachee == old(carteCachee)
      ensures Etat() == old(Etat()).Sans(carte)
    {
      if carte == carteVisible {
        var temp := carteVisible;
        carteVisible := null;
        return Ok(temp);
      } else if carte == carteCachee {
        var temp := carteCachee;
        carteCachee := null;
        return Ok(temp);
      }
      r := Echec(ArgumentIllegal);
    }

    /** `estComplete`: both slots hold a card. */
    predicate EstComplete()
      reads this`carteVisible, this`carteCachee
      ensures EstComplete() <==> Etat().Complet()
    {
      carteVisible != null && carteCachee != null
    }

    /** The two slots as a value. */
    function Etat(): Emplacements
      reads this`carteVisible, this`carteCachee
    {
      Emplacements(carteVisible, carteCachee)
    }

    /** `getCartesRestantes`: the cards still offered, the visible one first. */
    function CartesRestantes(): (cs: seq<Carte>)
      reads this`carteVisible, this`carteCachee
      ensures cs == Etat().Cartes()
    {
      (if carteVisible != null then [carteVisible] else [])
        + (if carteCachee != null then [carteCachee] else [])
    }

    /** `getNombreCartesRestantes`: counts the occupied slots. */
    method GetNombreCartesRestantes() returns (count: nat)
      ensures count == |CartesRestantes()|
    {
      count := 0;
      if carteVisible != null {
        count := count + 1;
      }
      if carteCachee != null {
        count := count + 1;
      }
    }
  }
}
