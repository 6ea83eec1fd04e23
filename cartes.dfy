/** Cards (Carte.java, CarteNormale.java, As.java, Joker.java, Trophee.java,
    the four magic cards of ExtensionMagique.java) and the pure queries on a
    list of cards that the Jest, the visitors and the trophy conditions use.

    Java models card kinds with subclasses; here a card is one class whose
    immutable `genre` says which kind it is and carries the kind's data, and
    whose one mutable field is the visibility flag.
 */
module Cartes {
  import opened Couleurs
  import opened Resultats

  /** The fifteen trophy conditions (ConditionTrophee.java). */
  datatype ConditionTrophee =
    | MAJORITY_AS | MAJORITY_DEUX | MAJORITY_TROIS | MAJORITY_QUATRE
    | HIGHEST_PIQUE | HIGHEST_TREFLE | HIGHEST_CARREAU | HIGHEST_COEUR
    | LOWEST_PIQUE | LOWEST_TREFLE | LOWEST_CARREAU | LOWEST_COEUR
    | HAS_JOKER | BEST_JEST | BEST_JEST_NO_JOKER

  /** The kind of a card, with what the kind's constructor fixes. */
  datatype Genre =
    | Normale(couleur: Couleur, valeur: int)
    | As(couleur: Couleur)
    | Joker
    | Trophee(couleur: Couleur, valeur: int, condition: ConditionTrophee)
    | Multiplicateur
    | Bouclier
    | Malchance(alea: int)
    | Chance(alea: int)

  class Carte {
    const genre: Genre
    var estVisible: bool

    /** Every card is created face down. */
    constructor (g: Genre)
      ensures genre == g && !estVisible
    {
      genre := g;
      estVisible := false;
    }

    /** The colour passed to the Java super constructor. */
    function GetCouleur(): Couleur {
      match genre
      case Normale(c, _) => c
      case As(c) => c
      case Joker => COEUR
      case Trophee(c, _, _) => c
      case _ => SPECIALE
    }

    /** The face value passed to the Java super constructor. */
    function GetValeurFaciale(): int {
      match genre
      case Normale(_, v) => v
      case As(_) => 1
      case Joker => 0
      case Trophee(_, v, _) => v
      case _ => 1
    }

    predicate EstAs() {
      genre.As?
    }

    /** `estJoker`: true only for the Joker, which is a heart of face value 0. */
    predicate EstJoker()
      ensures EstJoker() ==> GetCouleur() == COEUR && GetValeurFaciale() == 0
    {
      genre.Joker?
    }

    /** Turns the card face up; its kind, colour and value are constants. */
    method Reveler()
      modifies this`estVisible
      ensures estVisible
    {
      estVisible := true;
    }

    /** Turns the card face down. */
    method Cacher()
      modifies this`estVisible
      ensures !estVisible
    {
      estVisible := false;
    }

    /** `comparerForce`: the face value decides; on equal face values the
        colours are compared by declaration position (`Enum.compareTo`). */
    function ComparerForce(autre: Carte): (r: int)
      ensures GetValeurFaciale() > autre.GetValeurFaciale() ==> r > 0
      ensures GetValeurFaciale() < autre.GetValeurFaciale() ==> r < 0
      ensures GetValeurFaciale() == autre.GetValeurFaciale() ==>
                r == CompareTo(GetCouleur(), autre.GetCouleur())
      ensures r == 0 <==>
                GetValeurFaciale() == autre.GetValeurFaciale() && GetCouleur() == autre.GetCouleur()
      ensures r > 0 <==> Rang(this) > Rang(autre)
      ensures r < 0 <==> Rang(this) < Rang(autre)
    {
      var compareValeur := ComparerEntiers(GetValeurFaciale(), autre.GetValeurFaciale());
      if compareValeur != 0 then compareValeur
      else CompareTo(GetCouleur(), autre.GetCouleur())
    }
  }

  /** The total preorder that `comparerForce` decides: face value first,
      then declaration position of the colour. */
  function Rang(c: Carte): int {
    5 * c.GetValeurFaciale() + Ordinal(c.GetCouleur())
  }

  /** A card compares equal to itself; swapping the arguments negates the result. */
  lemma ComparerForceAntisymetrique(a: Carte, b: Carte)
    ensures a.ComparerForce(a) == 0
    ensures a.ComparerForce(b) == -b.ComparerForce(a)
  {
  }

  /** `comparerForce` is transitive. */
  lemma ComparerForceTransitive(a: Carte, b: Carte, c: Carte)
    requires a.ComparerForce(b) > 0 && b.ComparerForce(c) > 0
    ensures a.ComparerForce(c) > 0
  {
  }

  /** On equal face values the colour tie-break runs against the colours'
      forces: of two distinct colours, the stronger one compares as weaker. */
  lemma EgaliteFaceInverseForce(a: Carte, b: Carte)
    requires a.GetValeurFaciale() == b.GetValeurFaciale() && a.GetCouleur() != b.GetCouleur()
    ensures a.ComparerForce(b) > 0 <==> CompareForce(a.GetCouleur(), b.GetCouleur()) < 0
  {
    ForceInverseDeclaration(a.GetCouleur(), b.GetCouleur());
  }

  /** The public CarteNormale constructor rejects face values outside 1..4. */
  method NouvelleCarteNormale(couleur: Couleur, valeur: int) returns (r: Resultat<Carte>)
    ensures r.Echec? <==> valeur < 1 || valeur > 4
    ensures r.Echec? ==> r.erreur == ArgumentIllegal
    ensures r.Ok? ==> fresh(r.valeur) && r.valeur.genre == Normale(couleur, valeur)
                      && !r.valeur.estVisible
  {
    var c := new Carte(Normale(couleur, valeur));
    if valeur < 1 || valeur > 4 {
      r := Echec(ArgumentIllegal);
    } else {
      r := Ok(c);
    }
  }

  // ---------------------------------------------------------------------
  // Counting and summing over a list of cards

  /** Number of cards of `cs` satisfying `p`. */
  function Compter(cs: seq<Carte>, p: Carte -> bool): (n: nat)
    ensures n <= |cs|
    ensures n == 0 <==> forall i | 0 <= i < |cs| :: !p(cs[i])
  {
    if cs == [] then 0
    else
      assert forall i | 0 <= i < |cs| - 1 :: cs[..|cs| - 1][i] == cs[i];
      Compter(cs[..|cs| - 1], p) + (if p(cs[|cs| - 1]) then 1 else 0)
  }

  /** Sum of `f` over the cards of `cs`. */
  function Somme(cs: seq<Carte>, f: Carte -> int): int {
    if cs == [] then 0 else Somme(cs[..|cs| - 1], f) + f(cs[|cs| - 1])
  }

  lemma {:induction false} CompterConcat(a: seq<Carte>, b: seq<Carte>, p: Carte -> bool)
    ensures Compter(a + b, p) == Compter(a, p) + Compter(b, p)
  {
    if b != [] {
      assert (a + b)[..|a + b| - 1] == a + b[..|b| - 1];
      CompterConcat(a, b[..|b| - 1], p);
    } else {
      assert a + b == a;
    }
  }

  lemma {:induction false} SommeConcat(a: seq<Carte>, b: seq<Carte>, f: Carte -> int)
    ensures Somme(a + b, f) == Somme(a, f) + Somme(b, f)
  {
    if b != [] {
      assert (a + b)[..|a + b| - 1] == a + b[..|b| - 1];
      SommeConcat(a, b[..|b| - 1], f);
    } else {
      assert a + b == a;
    }
  }

  /** Counting does not depend on the order of the cards. */
  lemma {:induction false} CompterPermutation(a: seq<Carte>, b: seq<Carte>, p: Carte -> bool)
    requires multiset(a) == multiset(b)
    ensures Compter(a, p) == Compter(b, p)
  {
    if a != [] {
      var x := a[|a| - 1];
      var a' := a[..|a| - 1];
      assert a == a' + [x];
      assert x in multiset(b);
      var k :| 0 <= k < |b| && b[k] == x;
      var b' := b[..k] + b[k + 1..];
      assert b == b[..k] + [x] + b[k + 1..];
      assert multiset(b) == multiset(b[..k]) + multiset{x} + multiset(b[k + 1..]);
      assert multiset(a) == multiset(a') + multiset{x};
      assert multiset(b') == multiset(b[..k]) + multiset(b[k + 1..]);
      assert multiset(b') == multiset(b) - multiset{x};
      assert multiset(a') == multiset(a) - multiset{x};
      CompterPermutation(a', b', p);
      CompterConcat(b[..k], [x], p);
      CompterConcat(b[..k] + [x], b[k + 1..], p);
      CompterConcat(b[..k], b[k + 1..], p);
    } else {
      assert b == [];
    }
  }

  /** Summing does not depend on the order of the cards. */
  lemma {:induction false} SommePermutation(a: seq<Carte>, b: seq<Carte>, f: Carte -> int)
    requires multiset(a) == multiset(b)
    ensures Somme(a, f) == Somme(b, f)
  {
    if a != [] {
      var x := a[|a| - 1];
      var a' := a[..|a| - 1];
      assert a == a' + [x];
      assert x in multiset(b);
      var k :| 0 <= k < |b| && b[k] == x;
      var b' := b[..k] + b[k + 1..];
      assert b == b[..k] + [x] + b[k + 1..];
      assert multiset(b) == multiset(b[..k]) + multiset{x} + multiset(b[k + 1..]);
      assert multiset(a) == multiset(a') + multiset{x};
      assert multiset(b') == multiset(b[..k]) + multiset(b[k + 1..]);
      assert multiset(b') == multiset(b) - multiset{x};
      assert multiset(a') == multiset(a) - multiset{x};
      SommePermutation(a', b', f);
      SommeConcat(b[..k], [x], f);
      SommeConcat(b[..k] + [x], b[k + 1..], f);
      SommeConcat(b[..k], b[k + 1..], f);
    } else {
      assert b == [];
    }
  }

  // ---------------------------------------------------------------------
  // The queries of Jest.java, as functions of the card list

  /** `compterCartesCouleur`. */
  function CompterCouleur(cs: seq<Carte>, couleur: Couleur): nat {
    Compter(cs, (x: Carte) => x.GetCouleur() == couleur)
  }

  /** `compterCartesValeur`. */
  function CompterValeur(cs: seq<Carte>, valeur: int): nat {
    Compter(cs, (x: Carte) => x.GetValeurFaciale() == valeur)
  }

  /** Number of Jokers among the cards. */
  function CompterJokers(cs: seq<Carte>): nat {
    Compter(cs, (x: Carte) => x.EstJoker())
  }

  /** `contientJoker`. */
  predicate ContientJoker(cs: seq<Carte>) {
    exists i | 0 <= i < |cs| :: cs[i].EstJoker()
  }

  /** `contientPaireNoire`: a spade and a club of the given face value. */
  predicate ContientPaireNoire(cs: seq<Carte>, valeur: int) {
    (exists i | 0 <= i < |cs| :: cs[i].GetValeurFaciale() == valeur && cs[i].GetCouleur() == PIQUE)
    && (exists i | 0 <= i < |cs| :: cs[i].GetValeurFaciale() == valeur && cs[i].GetCouleur() == TREFLE)
  }

  /** The cards a highest-card query ranges over. */
  datatype Filtre = ParCouleur(couleur: Couleur) | ParValeur(valeur: int) | Toutes

  predicate Retenue(f: Filtre, c: Carte) {
    match f
    case ParCouleur(col) => c.GetCouleur() == col
    case ParValeur(v) => c.GetValeurFaciale() == v
    case Toutes => true
  }

  /** Position of the card that `getCartePlusHaute*` returns: a forward scan
      that keeps a retained card when nothing is kept yet or when it compares
      strictly stronger than the one kept. */
  function IndicePlusHaute(cs: seq<Carte>, f: Filtre): (r: Option<nat>)
    ensures r.None? <==> forall i | 0 <= i < |cs| :: !Retenue(f, cs[i])
    ensures r.Some? ==> r.valeur < |cs| && Retenue(f, cs[r.valeur])
    ensures r.Some? ==> forall i | 0 <= i < |cs| && Retenue(f, cs[i]) :: Rang(cs[i]) <= Rang(cs[r.valeur])
    ensures r.Some? ==> forall i | 0 <= i < r.valeur && Retenue(f, cs[i]) :: Rang(cs[i]) < Rang(cs[r.valeur])
  {
    if cs == [] then None
    else
      var k := IndicePlusHaute(cs[..|cs| - 1], f);
      var c := cs[|cs| - 1];
      assert forall i | 0 <= i < |cs| - 1 :: cs[..|cs| - 1][i] == cs[i];
      if Retenue(f, c) && (k.None? || c.ComparerForce(cs[k.valeur]) > 0) then Some(|cs| - 1)
      else k
  }

  /** Position of the card that `getCartePlusBasse` returns (strictly weaker replaces). */
  function IndicePlusBasse(cs: seq<Carte>, couleur: Couleur): (r: Option<nat>)
    ensures r.None? <==> forall i | 0 <= i < |cs| :: cs[i].GetCouleur() != couleur
    ensures r.Some? ==> r.valeur < |cs| && cs[r.valeur].GetCouleur() == couleur
    ensures r.Some? ==> forall i | 0 <= i < |cs| && cs[i].GetCouleur() == couleur :: Rang(cs[r.valeur]) <= Rang(cs[i])
    ensures r.Some? ==> forall i | 0 <= i < r.valeur && cs[i].GetCouleur() == couleur :: Rang(cs[r.valeur]) < Rang(cs[i])
  {
    if cs == [] then None
    else
      var k := IndicePlusBasse(cs[..|cs| - 1], couleur);
      var c := cs[|cs| - 1];
      assert forall i | 0 <= i < |cs| - 1 :: cs[..|cs| - 1][i] == cs[i];
      if c.GetCouleur() == couleur && (k.None? || c.ComparerForce(cs[k.valeur]) < 0) then Some(|cs| - 1)
      else k
  }

  /** The card a highest-card query returns, or null. */
  function PlusHaute(cs: seq<Carte>, f: Filtre): Carte? {
    match IndicePlusHaute(cs, f)
    case None => null
    case Some(i) => cs[i]
  }

  /** The card `getCartePlusBasse` returns, or null. */
  function PlusBasse(cs: seq<Carte>, couleur: Couleur): Carte? {
    match IndicePlusBasse(cs, couleur)
    case None => null
    case Some(i) => cs[i]
  }

  /** One step of the highest-card scan. */
  lemma PlusHauteAjout(cs: seq<Carte>, c: Carte, f: Filtre)
    ensures PlusHaute(cs + [c], f) ==
              var r := PlusHaute(cs, f);
              if Retenue(f, c) && (r == null || c.ComparerForce(r) > 0) then c else r
  {
    assert (cs + [c])[..|cs|] == cs;
  }

  /** One step of the lowest-card scan. */
  lemma PlusBasseAjout(cs: seq<Carte>, c: Carte, couleur: Couleur)
    ensures PlusBasse(cs + [c], couleur) ==
              var r := PlusBasse(cs, couleur);
              if c.GetCouleur() == couleur && (r == null || c.ComparerForce(r) < 0) then c else r
  {
    assert (cs + [c])[..|cs|] == cs;
  }

  // ---------------------------------------------------------------------
  // Effective values

  /** The effective value of every kind whose value does not read the
      values of other cards: CarteNormale, As, Joker, Trophee, Chance and
      Malchance.  The two aggregating magic cards never reach this function
      from `ValeurEffective`. */
  function ValeurDirecte(c: Carte, jest: seq<Carte>): int {
    match c.genre
    case Normale(_, v) => v
    case As(col) => if CompterCouleur(jest, col) == 1 then 5 else 1
    case Joker => if CompterCouleur(jest, COEUR) == 0 then 4 else 0
    case Trophee(_, v, _) => v
    case Malchance(a) => -a
    case Chance(a) => a
    case _ => 0
  }

  /** Sum of the effective values of the cards of `cs` with colour `couleur`,
      each evaluated in the Jest `jest`. */
  function SommeCouleur(cs: seq<Carte>, couleur: Couleur, jest: seq<Carte>): int {
    Somme(cs, (x: Carte) => if x.GetCouleur() == couleur then ValeurDirecte(x, jest) else 0)
  }

  /** `getValeurEffective(jest)` for every card kind. */
  function ValeurEffective(c: Carte, jest: seq<Carte>): int {
    match c.genre
    case Multiplicateur => SommeCouleur(jest, PIQUE, jest)
    case Bouclier => SommeCouleur(jest, CARREAU, jest)
    case _ => ValeurDirecte(c, jest)
  }

  /** Only the two aggregating magic cards, both SPECIALE, differ from their
      direct value; so `SommeCouleur` for a real colour sums effective values. */
  lemma ValeurDirecteHorsSpeciale(c: Carte, jest: seq<Carte>)
    requires c.GetCouleur() != SPECIALE
    ensures ValeurEffective(c, jest) == ValeurDirecte(c, jest)
  {
  }

  /** CarteNormale and Trophee: the effective value is the face value, whatever the Jest. */
  lemma ValeurFaciale(c: Carte, jest: seq<Carte>, autre: seq<Carte>)
    requires c.genre.Normale? || c.genre.Trophee?
    ensures ValeurEffective(c, jest) == c.GetValeurFaciale() == ValeurEffective(c, autre)
  {
  }

  /** An Ace is worth 5 exactly when it is the only card of its colour, else 1. */
  lemma ValeurAs(c: Carte, jest: seq<Carte>)
    requires c.genre.As?
    ensures c.GetValeurFaciale() == 1
    ensures ValeurEffective(c, jest) == (if CompterCouleur(jest, c.GetCouleur()) == 1 then 5 else 1)
  {
  }

  /** The Ace's value is recomputed on each call: a second card of its colour
      turns a 5 into a 1. */
  lemma AsPerdSonBonus(a: Carte, jest: seq<Carte>, d: Carte)
    requires a.genre.As? && a in jest && CompterCouleur(jest, a.GetCouleur()) == 1
    requires d.GetCouleur() == a.GetCouleur()
    ensures ValeurEffective(a, jest) == 5
    ensures ValeurEffective(a, jest + [d]) == 1
  {
    assert (jest + [d])[..|jest + [d]| - 1] == jest;
  }

  /** A card of colour `couleur` makes the colour count positive. */
  lemma {:induction false} CompterCouleurPositif(cs: seq<Carte>, couleur: Couleur, i: nat)
    requires i < |cs| && cs[i].GetCouleur() == couleur
    ensures CompterCouleur(cs, couleur) > 0
  {
  }

  /** The Joker is a heart, so it counts itself: inside a Jest it is worth 0,
      and it is worth 4 only when evaluated against a Jest without hearts. */
  lemma JokerCompteSoiMeme(j: Carte, jest: seq<Carte>)
    requires j.genre.Joker?
    ensures ValeurEffective(j, jest) == (if CompterCouleur(jest, COEUR) == 0 then 4 else 0)
    ensures j in jest ==> ValeurEffective(j, jest) == 0
  {
    if j in jest {
      var i :| 0 <= i < |jest| && jest[i] == j;
      CompterCouleurPositif(jest, COEUR, i);
    }
  }

  /** A Multiplicateur is worth the sum of the effective values of the spades
      of the Jest; a Bouclier that of the diamonds. */
  lemma {:induction false} ValeurMagiqueAgregee(c: Carte, cs: seq<Carte>, jest: seq<Carte>)
    requires c.genre.Multiplicateur? || c.genre.Bouclier?
    ensures c.genre.Multiplicateur? ==> ValeurEffective(c, jest) == SommeCouleur(jest, PIQUE, jest)
    ensures c.genre.Bouclier? ==> ValeurEffective(c, jest) == SommeCouleur(jest, CARREAU, jest)
    ensures SommeCouleur(cs, PIQUE, jest) == Somme(cs, (x: Carte) => if x.GetCouleur() == PIQUE then ValeurEffective(x, jest) else 0)
  {
    if cs != [] {
      ValeurMagiqueAgregee(c, cs[..|cs| - 1], jest);
    }
  }
}
