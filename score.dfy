/** The scoring visitors (VisiteurPiques, VisiteurTrefles, VisiteurCarreaux,
    VisiteurCoeurs, VisiteurPairesNoires, VisiteurExtensionMagique) and the
    double dispatch `Carte.accepter`.

    The six Java visitor classes share one interface and differ only in their
    rule, so they are one class `Visiteur` whose constant `regle` says which
    of the six it is.  Each visit is first written as a pure step function on
    the visitor's state; the class's methods are proved to perform exactly
    that step, and the closed forms after a full pass are proved on the fold
    of the step functions.
 */
module Score {
  import opened Couleurs
  import opened Cartes

  datatype Regle = Piques | Trefles | Carreaux | Coeurs | PairesNoires | ExtensionMagique

  /** A visitor's state: `scorePartiel` and, for the black-pair visitor,
      `valeursTraitees` (always empty for the other rules). */
  datatype Etat = Etat(partiel: int, traitees: set<int>)

  /** The state after construction or `reset`. */
  const Initial := Etat(0, {})

  /** Cards that reach `visiterCarteNormale`: a CarteNormale, or an As, which
      passes a CarteNormale of its colour and face value 1 whose effective
      value is the Ace's.  That wrapper answers every query exactly as the Ace
      does, so the model hands the Ace itself to the visitor. */
  predicate EstNormale(c: Carte) {
    c.genre.Normale? || c.genre.As?
  }

  /** The magic cards, which reach `visiterCarteExtension`. */
  predicate EstMagique(c: Carte) {
    c.genre.Multiplicateur? || c.genre.Bouclier? || c.genre.Malchance? || c.genre.Chance?
  }

  /** One `visiterCarteNormale` call, rule by rule. */
  function VisiteNormale(r: Regle, e: Etat, carte: Carte, jest: seq<Carte>): Etat {
    var couleur := carte.GetCouleur();
    match r
    case Piques =>
      if couleur == PIQUE then e.(partiel := e.partiel + ValeurEffective(carte, jest)) else e
    case Trefles =>
      if couleur == TREFLE then e.(partiel := e.partiel + ValeurEffective(carte, jest)) else e
    case Carreaux =>
      if couleur == CARREAU then e.(partiel := e.partiel - ValeurEffective(carte, jest)) else e
    case Coeurs =>
      if couleur != COEUR || !ContientJoker(jest) then e
      else
        var nbCoeurs := CompterCouleur(jest, COEUR);
        if 1 <= nbCoeurs <= 3 then e.(partiel := e.partiel - ValeurEffective(carte, jest))
        else if nbCoeurs == 4 then e.(partiel := e.partiel + ValeurEffective(carte, jest))
        else e
    case PairesNoires =>
      var valeur := carte.GetValeurFaciale();
      if couleur != PIQUE && couleur != TREFLE then e
      else if valeur in e.traitees then e
      else if ContientPaireNoire(jest, valeur) then Etat(e.partiel + 2, e.traitees + {valeur})
      else e
    case ExtensionMagique => e
  }

  /** One `visiterJoker` call: only the heart visitor reacts, with +4 when the
      Jest has no heart. */
  function VisiteJoker(r: Regle, e: Etat, jest: seq<Carte>): Etat {
    if r == Coeurs && CompterCouleur(jest, COEUR) == 0 then e.(partiel := e.partiel + 4) else e
  }

  /** One `visiterCarteExtension` call: a no-op by default (VisiteurScore.java),
      the card's effective value for the magic visitor. */
  function VisiteExtension(r: Regle, e: Etat, carte: Carte, jest: seq<Carte>): Etat {
    if r == ExtensionMagique && carte.GetCouleur() == SPECIALE && !carte.EstJoker() then
      e.(partiel := e.partiel + ValeurEffective(carte, jest))
    else e
  }

  /** `carte.accepter(visiteur, jest)`: each card kind calls one visit method;
      a trophy calls none. */
  function Accepte(r: Regle, e: Etat, carte: Carte, jest: seq<Carte>): Etat {
    match carte.genre
    case Normale(_, _) => VisiteNormale(r, e, carte, jest)
    case As(_) => VisiteNormale(r, e, carte, jest)
    case Joker => VisiteJoker(r, e, jest)
    case Trophee(_, _, _) => e
    case _ => VisiteExtension(r, e, carte, jest)
  }

  /** The state of a reset visitor after accepting the cards `cs` in order,
      each evaluated in the Jest `jest`. */
  function Passe(r: Regle, cs: seq<Carte>, jest: seq<Carte>): Etat {
    if cs == [] then Initial
    else Accepte(r, Passe(r, cs[..|cs| - 1], jest), cs[|cs| - 1], jest)
  }

  class Visiteur {
    const regle: Regle
    var scorePartiel: int
    var valeursTraitees: set<int>

    function EtatCourant(): Etat
      reads this
    {
      Etat(scorePartiel, valeursTraitees)
    }

    constructor (r: Regle)
      ensures regle == r && EtatCourant() == Initial
    {
      regle := r;
      scorePartiel := 0;
      valeursTraitees := {};
    }

    function GetScorePartiel(): int
      reads this
    {
      scorePartiel
    }

    method Reset()
      modifies this`scorePartiel, this`valeursTraitees
      ensures EtatCourant() == Initial
    {
      scorePartiel := 0;
      valeursTraitees := {};
    }

    method VisiterCarteNormale(carte: Carte, contexte: seq<Carte>)
      requires EstNormale(carte)
      modifies this`scorePartiel, this`valeursTraitees
      ensures EtatCourant() == VisiteNormale(regle, old(EtatCourant()), carte, contexte)
    {
      var couleur := carte.GetCouleur();
      match regle
      case Piques =>
        if couleur == PIQUE {
          scorePartiel := scorePartiel + ValeurEffective(carte, contexte);
        }
      case Trefles =>
        if couleur == TREFLE {
          scorePartiel := scorePartiel + ValeurEffective(carte, contexte);
        }
      case Carreaux =>
        if couleur == CARREAU {
          scorePartiel := scorePartiel - ValeurEffective(carte, contexte);
        }
      case Coeurs =>
        if couleur == COEUR {
          var aJoker := ContientJoker(contexte);
          var nbCoeurs := CompterCouleur(contexte, COEUR);
          if !aJoker {
            return;
          }
          if 1 <= nbCoeurs <= 3 {
            scorePartiel := scorePartiel - ValeurEffective(carte, contexte);
          } else if nbCoeurs == 4 {
            scorePartiel := scorePartiel + ValeurEffective(carte, contexte);
          }
        }
      case PairesNoires =>
        var valeur := carte.GetValeurFaciale();
        if couleur != PIQUE && couleur != TREFLE {
          return;
        }
        if valeur in valeursTraitees {
          return;
        }
        if ContientPaireNoire(contexte, valeur) {
          scorePartiel := scorePartiel + 2;
          valeursTraitees := valeursTraitees + {valeur};
        }
      case ExtensionMagique =>
    }

    method VisiterJoker(joker: Carte, contexte: seq<Carte>)
      requires joker.genre.Joker?
      modifies this`scorePartiel, this`valeursTraitees
      ensures EtatCourant() == VisiteJoker(regle, old(EtatCourant()), contexte)
    {
      if regle == Coeurs {
        var nbCoeurs := CompterCouleur(contexte, COEUR);
        if nbCoeurs == 0 {
          scorePartiel := scorePartiel + 4;
        }
      }
    }

    method VisiterCarteExtension(carte: Carte, contexte: seq<Carte>)
      modifies this`scorePartiel, this`valeursTraitees
      ensures EtatCourant() == VisiteExtension(regle, old(EtatCourant()), carte, contexte)
    {
      if regle == ExtensionMagique && carte.GetCouleur() == SPECIALE && !carte.EstJoker() {
        scorePartiel := scorePartiel + ValeurEffective(carte, contexte);
      }
    }
  }

  /** `carte.accepter(visiteur, contexte)`. */
  method Accepter(carte: Carte, visiteur: Visiteur, contexte: seq<Carte>)
    modifies visiteur`scorePartiel, visiteur`valeursTraitees
    ensures visiteur.EtatCourant() == Accepte(visiteur.regle, old(visiteur.EtatCourant()), carte, contexte)
  {
    match carte.genre
    case Normale(_, _) => visiteur.VisiterCarteNormale(carte, contexte);
    case As(_) => visiteur.VisiterCarteNormale(carte, contexte);
    case Joker => visiteur.VisiterJoker(carte, contexte);
    case Trophee(_, _, _) =>
    case _ => visiteur.VisiterCarteExtension(carte, contexte);
  }

  // ---------------------------------------------------------------------
  // Single visits

  /** A trophy changes no visitor's state. */
  lemma TropheeNeutre(r: Regle, e: Etat, t: Carte, jest: seq<Carte>)
    requires t.genre.Trophee?
    ensures Accepte(r, e, t, jest) == e
  {
  }

  /** Visiting the Joker changes nothing except the heart visitor, which gains
      4 exactly when the Jest has no heart. */
  lemma JokerVisite(r: Regle, e: Etat, j: Carte, jest: seq<Carte>)
    requires j.genre.Joker?
    ensures Accepte(r, e, j, jest).traitees == e.traitees
    ensures Accepte(r, e, j, jest).partiel ==
              e.partiel + (if r == Coeurs && CompterCouleur(jest, COEUR) == 0 then 4 else 0)
  {
  }

  // ---------------------------------------------------------------------
  // Closed forms after a full pass

  /** Sum of the effective values of the normally visited cards of a colour. */
  function SommeNormales(cs: seq<Carte>, couleur: Couleur, jest: seq<Carte>): int {
    Somme(cs, (x: Carte) => if EstNormale(x) && x.GetCouleur() == couleur then ValeurEffective(x, jest) else 0)
  }

  /** Sum of the effective values of the magic cards. */
  function SommeMagiques(cs: seq<Carte>, jest: seq<Carte>): int {
    Somme(cs, (x: Carte) => if EstMagique(x) then ValeurEffective(x, jest) else 0)
  }

  /** Spades add, clubs add, diamonds subtract the effective values of the
      cards of their colour; the magic visitor adds the magic cards' values.
      None of these visitors touches the set of treated values. */
  lemma {:induction false} PasseAdditive(cs: seq<Carte>, jest: seq<Carte>)
    ensures Passe(Piques, cs, jest) == Etat(SommeNormales(cs, PIQUE, jest), {})
    ensures Passe(Trefles, cs, jest) == Etat(SommeNormales(cs, TREFLE, jest), {})
    ensures Passe(Carreaux, cs, jest) == Etat(-SommeNormales(cs, CARREAU, jest), {})
    ensures Passe(ExtensionMagique, cs, jest) == Etat(SommeMagiques(cs, jest), {})
  {
    if cs != [] {
      PasseAdditive(cs[..|cs| - 1], jest);
    }
  }

  /** Coefficient of the hearts: 0 without the Joker, -1 with the Joker and
      one to three hearts (the Joker included), +1 with exactly four. */
  function CoefficientCoeurs(jest: seq<Carte>): int {
    if !ContientJoker(jest) then 0
    else
      var n := CompterCouleur(jest, COEUR);
      if 1 <= n <= 3 then -1 else if n == 4 then 1 else 0
  }

  lemma {:induction false} PasseCoeursPartielle(cs: seq<Carte>, jest: seq<Carte>)
    ensures Passe(Coeurs, cs, jest) ==
              Etat(CoefficientCoeurs(jest) * SommeNormales(cs, COEUR, jest)
                   + (if CompterCouleur(jest, COEUR) == 0 then 4 * CompterJokers(cs) else 0), {})
  {
    if cs != [] {
      PasseCoeursPartielle(cs[..|cs| - 1], jest);
    }
  }

  /** After a full pass over a Jest, the heart visitor holds the coefficient
      times the hearts' values: the Joker's +4 never applies, since the Joker
      is itself a heart of the Jest. */
  lemma PasseCoeurs(jest: seq<Carte>)
    ensures Passe(Coeurs, jest, jest).partiel == CoefficientCoeurs(jest) * SommeNormales(jest, COEUR, jest)
  {
    PasseCoeursPartielle(jest, jest);
    if CompterJokers(jest) > 0 {
      var i :| 0 <= i < |jest| && jest[i].EstJoker();
      CompterCouleurPositif(jest, COEUR, i);
    }
  }

  /** A card that makes the black-pair visitor count its face value. */
  predicate CompteUnePaire(c: Carte, jest: seq<Carte>) {
    EstNormale(c) && (c.GetCouleur() == PIQUE || c.GetCouleur() == TREFLE)
    && ContientPaireNoire(jest, c.GetValeurFaciale())
  }

  /** The values for which a black pair is counted: face values of the spades
      and clubs among `cs` that form a black pair in `jest`. */
  function ValeursPaires(cs: seq<Carte>, jest: seq<Carte>): set<int> {
    set i | 0 <= i < |cs| && CompteUnePaire(cs[i], jest) :: cs[i].GetValeurFaciale()
  }

  lemma ValeursPairesAjout(cs: seq<Carte>, jest: seq<Carte>)
    requires cs != []
    ensures ValeursPaires(cs, jest) ==
              ValeursPaires(cs[..|cs| - 1], jest)
              + (if CompteUnePaire(cs[|cs| - 1], jest) then {cs[|cs| - 1].GetValeurFaciale()} else {})
  {
    var debut := cs[..|cs| - 1];
    assert forall i | 0 <= i < |debut| :: debut[i] == cs[i];
    forall w | w in ValeursPaires(cs, jest)
      ensures w in ValeursPaires(debut, jest) || (CompteUnePaire(cs[|cs| - 1], jest) && w == cs[|cs| - 1].GetValeurFaciale())
    {
      var i :| 0 <= i < |cs| && CompteUnePaire(cs[i], jest) && w == cs[i].GetValeurFaciale();
      if i < |debut| {
        assert w in ValeursPaires(debut, jest);
      }
    }
  }

  /** One step of the black-pair visitor. */
  lemma PasPairesNoires(e: Etat, x: Carte, jest: seq<Carte>)
    ensures Accepte(PairesNoires, e, x, jest) ==
              if CompteUnePaire(x, jest) && x.GetValeurFaciale() !in e.traitees
              then Etat(e.partiel + 2, e.traitees + {x.GetValeurFaciale()})
              else e
  {
  }

  /** The black-pair visitor counts each black-pair value once: its set is
      exactly the pair values met so far and its partial is twice their number. */
  lemma {:induction false} PassePairesNoires(cs: seq<Carte>, jest: seq<Carte>)
    ensures Passe(PairesNoires, cs, jest) == Etat(2 * |ValeursPaires(cs, jest)|, ValeursPaires(cs, jest))
  {
    if cs != [] {
      var debut := cs[..|cs| - 1];
      var x := cs[|cs| - 1];
      PassePairesNoires(debut, jest);
      ValeursPairesAjout(cs, jest);
      var avant := ValeursPaires(debut, jest);
      var v := x.GetValeurFaciale();
      assert Passe(PairesNoires, cs, jest) == Accepte(PairesNoires, Etat(2 * |avant|, avant), x, jest);
      PasPairesNoires(Etat(2 * |avant|, avant), x, jest);
      if CompteUnePaire(x, jest) && v !in avant {
        assert |avant + {v}| == |avant| + 1;
      }
    }
  }

  // ---------------------------------------------------------------------
  // Links with the magic cards

  /** A Jest's cards never include trophies (trophies are kept apart). */
  predicate SansTrophee(cs: seq<Carte>) {
    forall i | 0 <= i < |cs| :: !cs[i].genre.Trophee?
  }

  /** Outside trophies, the cards of a real colour other than hearts are
      exactly the normally visited ones. */
  lemma {:induction false} NormalesEtCouleur(cs: seq<Carte>, couleur: Couleur, jest: seq<Carte>)
    requires SansTrophee(cs) && couleur != SPECIALE && couleur != COEUR
    ensures SommeNormales(cs, couleur, jest) == SommeCouleur(cs, couleur, jest)
  {
    if cs != [] {
      assert SansTrophee(cs[..|cs| - 1]) by {
        assert forall i | 0 <= i < |cs| - 1 :: cs[..|cs| - 1][i] == cs[i];
      }
      NormalesEtCouleur(cs[..|cs| - 1], couleur, jest);
    }
  }

  /** "Multiplicateur: double les Piques": the Multiplicateur is worth exactly
      what the spade visitor scores for the Jest. */
  lemma MultiplicateurVautPiques(m: Carte, jest: seq<Carte>)
    requires m.genre.Multiplicateur? && SansTrophee(jest)
    ensures ValeurEffective(m, jest) == Passe(Piques, jest, jest).partiel
  {
    PasseAdditive(jest, jest);
    NormalesEtCouleur(jest, PIQUE, jest);
  }

  /** "Bouclier: annule les Carreaux": the Bouclier's value cancels what the
      diamond visitor scores for the Jest. */
  lemma BouclierAnnuleCarreaux(b: Carte, jest: seq<Carte>)
    requires b.genre.Bouclier? && SansTrophee(jest)
    ensures ValeurEffective(b, jest) + Passe(Carreaux, jest, jest).partiel == 0
  {
    PasseAdditive(jest, jest);
    NormalesEtCouleur(jest, CARREAU, jest);
  }

  /** Cards built by the public constructors have face values in 1..4 and
      magic cards with random values draw them in 0..5. */
  predicate CarteValide(c: Carte) {
    match c.genre
    case Normale(_, v) => 1 <= v <= 4
    case Trophee(_, v, _) => 1 <= v <= 4
    case Malchance(a) => 0 <= a <= 5
    case Chance(a) => 0 <= a <= 5
    case _ => true
  }

  lemma {:induction false} SommeNormalesPositive(cs: seq<Carte>, couleur: Couleur, jest: seq<Carte>)
    requires forall i | 0 <= i < |cs| :: CarteValide(cs[i])
    ensures SommeNormales(cs, couleur, jest) >= 0
  {
    if cs != [] {
      SommeNormalesPositive(cs[..|cs| - 1], couleur, jest);
    }
  }

  /** With valid cards, diamonds never score positively. */
  lemma CarreauxNegatifs(jest: seq<Carte>)
    requires forall i | 0 <= i < |jest| :: CarteValide(jest[i])
    ensures Passe(Carreaux, jest, jest).partiel <= 0
  {
    PasseAdditive(jest, jest);
    SommeNormalesPositive(jest, CARREAU, jest);
  }
}
