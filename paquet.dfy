/** The full deck (Paquet.java): built once per game, shuffled, and dealt
    from the front.

    `initialiser` walks every value of `Couleur`, SPECIALE included, so the
    deck holds an Ace, a 2, a 3 and a 4 of five colours plus the Joker:
    21 cards rather than the 17 of the rules (see module Constats).
 */
module Paquets {
  import opened Couleurs
  import opened Resultats
  import opened Cartes

  /** `Couleur.values()`, in declaration order. */
  const ValeursCouleur: seq<Couleur> := [PIQUE, TREFLE, CARREAU, COEUR, SPECIALE]

  /** The kinds one colour contributes, in the order they are added: its Ace, then 2, 3 and 4. */
  function GenresCouleur(c: Couleur): seq<Genre> {
    [As(c), Normale(c, 2), Normale(c, 3), Normale(c, 4)]
  }

  /** The kinds the colour loop adds for the colours `couleurs`, in order. */
  function GenresDe(couleurs: seq<Couleur>): (gs: seq<Genre>)
    ensures |gs| == 4 * |couleurs|
  {
    if couleurs == [] then []
    else GenresDe(couleurs[..|couleurs| - 1]) + GenresCouleur(couleurs[|couleurs| - 1])
  }

  /** The kinds of the cards `initialiser` puts in the deck, in order. */
  function GenresInitiaux(): seq<Genre> {
    GenresDe(ValeursCouleur) + [Joker]
  }

  /** The kinds of a list of cards. */
  function Genres(cs: seq<Carte>): (gs: seq<Genre>)
    ensures |gs| == |cs|
    ensures forall i | 0 <= i < |cs| :: gs[i] == cs[i].genre
  {
    seq(|cs|, i requires 0 <= i < |cs| => cs[i].genre)
  }

  /** No card object occurs twice. */
  predicate Distinctes(cs: seq<Carte>) {
    forall i, j | 0 <= i < j < |cs| :: cs[i] != cs[j]
  }

  /** No kind occurs twice. */
  predicate GenresDistincts(gs: seq<Genre>) {
    forall i, j | 0 <= i < j < |gs| :: gs[i] != gs[j]
  }

  /** A kind the colour loop produces for one of `couleurs`. */
  predicate GenreDeCouleur(g: Genre, couleurs: seq<Couleur>) {
    (g.As? && g.couleur in couleurs) || (g.Normale? && g.couleur in couleurs && 2 <= g.valeur <= 4)
  }

  /** The colour loop produces exactly the Ace and the 2, 3 and 4 of each listed colour. */
  lemma {:induction false} GenresDeContenu(couleurs: seq<Couleur>, g: Genre)
    ensures g in GenresDe(couleurs) <==> GenreDeCouleur(g, couleurs)
  {
    if couleurs != [] {
      var init := couleurs[..|couleurs| - 1];
      var c := couleurs[|couleurs| - 1];
      GenresDeContenu(init, g);
      assert couleurs == init + [c];
      assert g in GenresCouleur(c) <==> g == As(c) || (g.Normale? && g.couleur == c && 2 <= g.valeur <= 4);
    }
  }

  /** Distinct colours give distinct kinds. */
  lemma {:induction false} GenresDeDistincts(couleurs: seq<Couleur>)
    requires forall i, j | 0 <= i < j < |couleurs| :: couleurs[i] != couleurs[j]
    ensures GenresDistincts(GenresDe(couleurs))
  {
    if couleurs != [] {
      var init := couleurs[..|couleurs| - 1];
      var c := couleurs[|couleurs| - 1];
      GenresDeDistincts(init);
      var gs := GenresDe(couleurs);
      var n := |GenresDe(init)|;
      forall i, j | 0 <= i < j < |gs|
        ensures gs[i] != gs[j]
      {
        if j >= n && i < n {
          GenresDeContenu(init, gs[i]);
          assert gs[i] in GenresDe(init);
          assert gs[j].couleur == c && c !in init;
        }
      }
    }
  }

  /** The deck `initialiser` builds: 21 cards of pairwise distinct kinds, which
      are the Joker and the Ace, 2, 3 and 4 of every colour, SPECIALE included. */
  lemma PaquetInitial(g: Genre)
    ensures |GenresInitiaux()| == 21
    ensures GenresDistincts(GenresInitiaux())
    ensures g in GenresInitiaux() <==> g == Joker || GenreDeCouleur(g, ValeursCouleur)
  {
    GenresDeContenu(ValeursCouleur, g);
    GenresDeContenu(ValeursCouleur, Joker);
    GenresDeDistincts(ValeursCouleur);
  }

  class Paquet {
    var cartes: seq<Carte>

    /** A new deck is empty. */
    constructor ()
      ensures cartes == []
    {
      cartes := [];
    }

    /** `initialiser`: empties the deck and fills it with new face-down cards
        whose kinds are `GenresInitiaux()`, in that order.  The extension flag
        has no effect. */
    method Initialiser(avecExtension: bool)
      modifies this
      ensures Genres(cartes) == GenresInitiaux()
      ensures Distinctes(cartes)
      ensures forall i | 0 <= i < |cartes| :: fresh(cartes[i]) && !cartes[i].estVisible
    {
      cartes := [];
      for k := 0 to |ValeursCouleur|
        invariant Genres(cartes) == GenresDe(ValeursCouleur[..k])
        invariant Distinctes(cartes)
        invariant forall i | 0 <= i < |cartes| :: fresh(cartes[i]) && !cartes[i].estVisible
      {
        var couleur := ValeursCouleur[k];
        assert ValeursCouleur[..k + 1][..k] == ValeursCouleur[..k];
        var carteAs := new Carte(As(couleur));
        cartes := cartes + [carteAs];
        for valeur := 2 to 5
          invariant Genres(cartes) == GenresDe(ValeursCouleur[..k]) + GenresCouleur(couleur)[..valeur - 1]
          invariant Distinctes(cartes)
          invariant forall i | 0 <= i < |cartes| :: fresh(cartes[i]) && !cartes[i].estVisible
        {
          var carte := new Carte(Normale(couleur, valeur));
          cartes := cartes + [carte];
        }
      }
      assert ValeursCouleur[..|ValeursCouleur|] == ValeursCouleur;
      var joker := new Carte(Joker);
      cartes := cartes + [joker];
    }

    /** `melanger`: some permutation of the deck (the random source is not modelled). */
    method Melanger()
      modifies this
      ensures multiset(cartes) == multiset(old(cartes))
    {
      var melange: seq<Carte> :| multiset(melange) == multiset(cartes);
      cartes := melange;
    }

    /** `distribuer(nombre)`: fails with IllegalStateException, leaving the
        deck as it was, when `nombre` exceeds the deck size; otherwise removes
        the first `nombre` cards one by one from the front and returns them in
        order (no card for a negative `nombre`). */
    method Distribuer(nombre: int) returns (r: Resultat<seq<Carte>>)
      modifies this
      ensures nombre > |old(cartes)| ==> r == Echec(EtatIllegal) && cartes == old(cartes)
      ensures nombre <= |old(cartes)| ==> r.Ok? && |r.valeur| == if nombre < 0 then 0 else nombre
      ensures r.Ok? ==> r.valeur + cartes == old(cartes)
    {
      if nombre > |cartes| {
        return Echec(EtatIllegal);
      }
      var distribuees: seq<Carte> := [];
      var i := 0;
      while i < nombre
        invariant 0 <= i && (nombre >= 0 ==> i <= nombre) && (nombre < 0 ==> i == 0)
        invariant distribuees + cartes == old(cartes) && |distribuees| == i
      {
        distribuees := distribuees + [cartes[0]];
        cartes := cartes[1..];
        i := i + 1;
      }
      r := Ok(distribuees);
    }

    predicate EstVide()
      reads this
      ensures EstVide() <==> GetTaille() == 0
    {
      cartes == []
    }

    function GetTaille(): nat
      reads this
    {
      |cartes|
    }

    /** `getCartes`: a list value, so later changes to it cannot reach the deck. */
    function GetCartes(): (copie: seq<Carte>)
      reads this
      ensures copie == cartes
    {
      cartes
    }

    /** `ajouterCartes`: appends the cards at the end, in order. */
    method AjouterCartes(nouvelles: seq<Carte>)
      modifies this
      ensures cartes == old(cartes) + nouvelles
    {
      cartes := cartes + nouvelles;
    }
  }
}
