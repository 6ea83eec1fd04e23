/** The draw pile (Pioche.java), a stack: the last card put on it is the
    first one drawn.  The stack is a sequence whose last element is the top.
 */
module Pioches {
  import opened Resultats
  import opened Cartes

  /** The list `s` in reverse order. */
  function Renverse<T>(s: seq<T>): (r: seq<T>)
    ensures |r| == |s|
    ensures forall i | 0 <= i < |s| :: r[i] == s[|s| - 1 - i]
  {
    if s == [] then [] else [s[|s| - 1]] + Renverse(s[..|s| - 1])
  }

  /** The `n` top cards of the stack `pile`, the top one first. */
  function Dessus(pile: seq<Carte>, n: nat): (r: seq<Carte>)
    requires n <= |pile|
    ensures |r| == n
    ensures forall i | 0 <= i < n :: r[i] == pile[|pile| - 1 - i]
  {
    Renverse(pile[|pile| - n..])
  }

  /** Last in, first out: drawing as many cards as were just pushed returns
      them in reverse order and leaves the stack as it was before the push. */
  lemma {:induction false} EmpilerPuisPiocher(pile: seq<Carte>, ajout: seq<Carte>)
    ensures Dessus(pile + ajout, |ajout|) == Renverse(ajout)
    ensures (pile + ajout)[..|pile|] == pile
  {
    assert (pile + ajout)[|pile|..] == ajout;
  }

  class Pioche {
    var cartes: seq<Carte>

    /** The pile holds the given cards, the last one on top; a null list gives an empty pile. */
    constructor (cartesInitiales: Option<seq<Carte>>)
      ensures cartes == if cartesInitiales.Some? then cartesInitiales.valeur else []
    {
      if cartesInitiales.Some? {
        cartes := cartesInitiales.valeur;
      } else {
        cartes := [];
      }
    }

    /** `piocher()`: fails with IllegalStateException on an empty pile;
        otherwise pops and returns the top card. */
    method Piocher() returns (r: Resultat<Carte>)
      modifies this
      ensures old(cartes) == [] ==> r == Echec(EtatIllegal) && cartes == []
      ensures old(cartes) != [] ==> r.Ok? && cartes + [r.valeur] == old(cartes)
    {
      if EstVide() {
        return Echec(EtatIllegal);
      }
      r := Ok(cartes[|cartes| - 1]);
      cartes := cartes[..|cartes| - 1];
    }

    /** `piocher(nombre)`: fails with IllegalStateException, leaving the pile
        as it was, when `nombre` exceeds its size; otherwise pops `nombre`
        cards one at a time and returns them top first (none for a negative
        `nombre`). */
    method PiocherPlusieurs(nombre: int) returns (r: Resultat<seq<Carte>>)
      modifies this
      ensures nombre > |old(cartes)| ==> r == Echec(EtatIllegal) && cartes == old(cartes)
      ensures nombre <= |old(cartes)| ==>
                var n := if nombre < 0 then 0 else nombre;
                r == Ok(Dessus(old(cartes), n)) && cartes == old(cartes)[..|old(cartes)| - n]
    {
      if nombre > |cartes| {
        return Echec(EtatIllegal);
      }
      var piochees: seq<Carte> := [];
      var i := 0;
      while i < nombre
        invariant 0 <= i && (nombre >= 0 ==> i <= nombre) && (nombre < 0 ==> i == 0)
        invariant cartes == old(cartes)[..|old(cartes)| - i]
        invariant piochees == Dessus(old(cartes), i)
      {
        var c := Piocher();
        piochees := piochees + [c.valeur];
        i := i + 1;
      }
      r := Ok(piochees);
    }

    predicate EstVide()
      reads this
      ensures EstVide() <==> GetTaille() == 0
    {
      cartes == []
    }

    function GetTaille(): nat
      reads this
    {
      |cartes|
    }

    /** `ajouterCartes`: pushes the cards in order, so the last one ends on
        top; a null list changes nothing. */
    method AjouterCartes(nouvelles: Option<seq<Carte>>)
      modifies this
      ensures cartes == old(cartes) + if nouvelles.Some? then nouvelles.valeur else []
    {
      if nouvelles.Some? {
        cartes := cartes + nouvelles.valeur;
      }
    }

    /** `melanger`: the same cards in some order (the random source is not modelled). */
    method Melanger()
      modifies this
      ensures multiset(cartes) == multiset(old(cartes))
      ensures |cartes| == |old(cartes)|
    {
      var temp: seq<Carte> :| multiset(temp) == multiset(cartes);
      cartes := temp;
    }
  }
}
