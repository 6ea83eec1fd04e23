/** The trophy conditions (ConditionTrophee.java) and `Trophee.evaluerCondition`.

    Each rule scans the players in list order keeping a running winner.  A
    scan only looks, for each player, at one or two values read from the
    player (a count, a highest card, a score, whether the Jest holds the
    Joker); so each scan is written as a fold, from the first player to the
    last, over the sequence of those values, and its properties are proved
    about that fold.  The methods run the Java loops over the player objects
    and are proved to return the player the fold designates.  A winner is
    given by its position in the list, so every non-null result is a member
    of the list.
 */
module Conditions {
  import opened Couleurs
  import opened Resultats
  import opened Cartes
  import opened Jests
  import opened Joueurs

  /** The running state of a count or score scan: the current winner's
      position and the count or score to beat. */
  datatype Course = Course(gagnant: Option<nat>, max: int)

  /** The running state of a highest- or lowest-card scan: the current
      winner's position and the card to beat. */
  datatype Duel = Duel(gagnant: Option<nat>, carte: Carte?)

  /** The player that `null` or a position designates in `js`. */
  function Designe(js: seq<Joueur>, g: Option<nat>): Joueur?
    requires g.Some? ==> g.valeur < |js|
  {
    match g
    case None => null
    case Some(i) => js[i]
  }

  // ---------------------------------------------------------------------
  // What the scans read from each player

  /** Each player's `compterCartesValeur(v)`. */
  function Comptes(mains: seq<seq<Carte>>, v: int): (ns: seq<int>)
    ensures |ns| == |mains|
    ensures forall j | 0 <= j < |mains| :: ns[j] == CompterValeur(mains[j], v)
  {
    seq(|mains|, j requires 0 <= j < |mains| => CompterValeur(mains[j], v))
  }

  /** Each player's highest card for a filter (`getCartePlusHaute*`). */
  function Hautes(mains: seq<seq<Carte>>, f: Filtre): (cs: seq<Carte?>)
    ensures |cs| == |mains|
    ensures forall j | 0 <= j < |mains| :: cs[j] == PlusHaute(mains[j], f)
  {
    seq(|mains|, j requires 0 <= j < |mains| => PlusHaute(mains[j], f))
  }

  /** Each player's lowest card of a colour (`getCartePlusBasse`). */
  function Basses(mains: seq<seq<Carte>>, couleur: Couleur): (cs: seq<Carte?>)
    ensures |cs| == |mains|
    ensures forall j | 0 <= j < |mains| :: cs[j] == PlusBasse(mains[j], couleur)
  {
    seq(|mains|, j requires 0 <= j < |mains| => PlusBasse(mains[j], couleur))
  }

  /** Whether the best-score rule considers each player: with `sansJoker`,
      Joker holders are skipped. */
  function Candidats(mains: seq<seq<Carte>>, sansJoker: bool): (bs: seq<bool>)
    ensures |bs| == |mains|
    ensures forall j | 0 <= j < |mains| :: bs[j] == !(sansJoker && ContientJoker(mains[j]))
  {
    seq(|mains|, j requires 0 <= j < |mains| => !(sansJoker && ContientJoker(mains[j])))
  }

  /** A positive count of a face value means a highest card of that value. */
  lemma CompterValeurPlusHaute(cs: seq<Carte>, v: int)
    ensures CompterValeur(cs, v) > 0 <==> PlusHaute(cs, ParValeur(v)) != null
  {
    if CompterValeur(cs, v) > 0 {
      var i :| 0 <= i < |cs| && cs[i].GetValeurFaciale() == v;
      assert Retenue(ParValeur(v), cs[i]);
    } else {
      forall i | 0 <= i < |cs| ensures !Retenue(ParValeur(v), cs[i]) {
        assert !(((x: Carte) => x.GetValeurFaciale() == v)(cs[i]));
      }
    }
  }

  /** A non-empty Jest has a highest card. */
  lemma PlusHauteGlobale(cs: seq<Carte>)
    ensures cs != [] <==> PlusHaute(cs, Toutes) != null
  {
    if cs != [] {
      assert Retenue(Toutes, cs[0]);
    }
  }

  // ---------------------------------------------------------------------
  // Majority of a face value

  /** `briserEgaliteMajorite`: true when the later player (card `c2`) wins
      against the current one (card `c1`). */
  predicate GagneEgalite(c1: Carte?, c2: Carte?) {
    c1 == null || (c2 != null && c2.ComparerForce(c1) > 0)
  }

  /** The scan of `evaluerMajorite` over the players' counts and highest
      cards of the value: a larger count takes the lead; an equal positive
      count goes to the tie-break. */
  function Majorite(comptes: seq<int>, hautes: seq<Carte?>): (r: Course)
    requires |hautes| == |comptes|
    ensures r.gagnant.Some? ==> r.gagnant.valeur < |comptes|
    ensures r.max > 0 ==> r.gagnant.Some?
  {
    if comptes == [] then Course(None, 0)
    else
      var j := |comptes| - 1;
      var e := Majorite(comptes[..j], hautes[..j]);
      var n := comptes[j];
      if n > e.max then Course(Some(j), n)
      else if n == e.max && n > 0 then
        if GagneEgalite(hautes[e.gagnant.valeur], hautes[j]) then Course(Some(j), n) else e
      else e
  }

  /** The scan over a prefix one player longer. */
  lemma MajoriteEtape(comptes: seq<int>, hautes: seq<Carte?>, i: nat)
    requires |hautes| == |comptes| && i < |comptes|
    ensures var e := Majorite(comptes[..i], hautes[..i]);
            (e.gagnant.Some? ==> e.gagnant.valeur < i)
            && Majorite(comptes[..i + 1], hautes[..i + 1]) ==
                 if comptes[i] > e.max then Course(Some(i), comptes[i])
                 else if comptes[i] == e.max && comptes[i] > 0 then
                   if GagneEgalite(hautes[e.gagnant.valeur], hautes[i]) then Course(Some(i), comptes[i]) else e
                 else e
  {
    assert comptes[..i + 1][..i] == comptes[..i] && hautes[..i + 1][..i] == hautes[..i];
  }

  /** The majority winner has the largest count; there is none iff every
      count is 0. */
  lemma {:induction false} MajoriteMaximale(comptes: seq<int>, hautes: seq<Carte?>)
    requires |hautes| == |comptes|
    requires forall j | 0 <= j < |comptes| :: comptes[j] >= 0
    ensures var r := Majorite(comptes, hautes);
            r.max >= 0
            && (r.gagnant.None? <==> r.max == 0)
            && (r.gagnant.None? <==> forall j | 0 <= j < |comptes| :: comptes[j] == 0)
            && (r.gagnant.Some? ==> comptes[r.gagnant.valeur] == r.max)
            && (forall j | 0 <= j < |comptes| :: comptes[j] <= r.max)
  {
    if comptes != [] {
      var j := |comptes| - 1;
      MajoriteMaximale(comptes[..j], hautes[..j]);
      assert forall i | 0 <= i < j :: comptes[..j][i] == comptes[i];
    }
  }

  /** The majority tie-break, when every positive count comes with a
      highest card: the winner's card is at least as strong as that of every
      player with the winning count, and strictly stronger than that of
      every such player before it. */
  lemma {:induction false} MajoriteDepartage(comptes: seq<int>, hautes: seq<Carte?>)
    requires |hautes| == |comptes|
    requires forall j | 0 <= j < |comptes| :: comptes[j] >= 0
    requires forall j | 0 <= j < |comptes| && comptes[j] > 0 :: hautes[j] != null
    ensures var r := Majorite(comptes, hautes);
            r.gagnant.Some? ==>
              var g := r.gagnant.valeur;
              hautes[g] != null
              && (forall j | 0 <= j < |comptes| && comptes[j] == r.max ::
                    hautes[j] != null && Rang(hautes[j]) <= Rang(hautes[g]))
              && (forall j | 0 <= j < g && comptes[j] == r.max ::
                    hautes[j] != null && Rang(hautes[j]) < Rang(hautes[g]))
  {
    MajoriteMaximale(comptes, hautes);
    if comptes != [] {
      var j := |comptes| - 1;
      assert forall i | 0 <= i < j :: comptes[..j][i] == comptes[i] && hautes[..j][i] == hautes[i];
      MajoriteDepartage(comptes[..j], hautes[..j]);
      MajoriteMaximale(comptes[..j], hautes[..j]);
    }
  }

  /** `evaluerMajorite(joueurs, v)` over the players' cards `mains`. */
  function MajoriteValeur(mains: seq<seq<Carte>>, v: int): Course {
    Majorite(Comptes(mains, v), Hautes(mains, ParValeur(v)))
  }

  /** The majority rule in the game's terms: nobody wins iff nobody holds a
      card of value v; otherwise the winner holds the most cards of value v
      and, among the players holding as many, the strongest highest card of
      value v, the earliest in the list on equal strength. */
  lemma MajoriteValeurGagnant(mains: seq<seq<Carte>>, v: int)
    ensures var r := MajoriteValeur(mains, v);
            (r.gagnant.None? <==> forall j | 0 <= j < |mains| :: CompterValeur(mains[j], v) == 0)
            && (forall j | 0 <= j < |mains| :: CompterValeur(mains[j], v) <= r.max)
            && (r.gagnant.Some? ==>
                  var g := r.gagnant.valeur;
                  CompterValeur(mains[g], v) == r.max
                  && PlusHaute(mains[g], ParValeur(v)) != null
                  && (forall j | 0 <= j < |mains| && CompterValeur(mains[j], v) == r.max ::
                        PlusHaute(mains[j], ParValeur(v)) != null
                        && Rang(PlusHaute(mains[j], ParValeur(v))) <= Rang(PlusHaute(mains[g], ParValeur(v))))
                  && (forall j | 0 <= j < g && CompterValeur(mains[j], v) == r.max ::
                        PlusHaute(mains[j], ParValeur(v)) != null
                        && Rang(PlusHaute(mains[j], ParValeur(v))) < Rang(PlusHaute(mains[g], ParValeur(v)))))
  {
    var comptes, hautes := Comptes(mains, v), Hautes(mains, ParValeur(v));
    forall j | 0 <= j < |mains| ensures comptes[j] > 0 ==> hautes[j] != null {
      CompterValeurPlusHaute(mains[j], v);
    }
    MajoriteMaximale(comptes, hautes);
    MajoriteDepartage(comptes, hautes);
  }

  // ---------------------------------------------------------------------
  // Highest and lowest card of a colour

  /** The scan of `evaluerCartePlusHaute`: a player's card (null when the
      player has none) replaces the running one when it is not null and
      either none is kept yet or it compares strictly stronger. */
  function PlusForte(cs: seq<Carte?>): (r: Duel)
    ensures r.gagnant.Some? ==> r.gagnant.valeur < |cs|
  {
    if cs == [] then Duel(None, null)
    else
      var e := PlusForte(cs[..|cs| - 1]);
      var c := cs[|cs| - 1];
      if c != null && (e.carte == null || c.ComparerForce(e.carte) > 0) then Duel(Some(|cs| - 1), c)
      else e
  }

  /** The scan of `evaluerCartePlusBasse`: strictly weaker replaces. */
  function PlusFaible(cs: seq<Carte?>): (r: Duel)
    ensures r.gagnant.Some? ==> r.gagnant.valeur < |cs|
  {
    if cs == [] then Duel(None, null)
    else
      var e := PlusFaible(cs[..|cs| - 1]);
      var c := cs[|cs| - 1];
      if c != null && (e.carte == null || c.ComparerForce(e.carte) < 0) then Duel(Some(|cs| - 1), c)
      else e
  }

  /** What the highest-card scan finds: nobody iff every card is null;
      otherwise the holder of a card no card beats, strictly beating every
      card before it. */
  lemma {:induction false} PlusForteProprietes(cs: seq<Carte?>)
    ensures var r := PlusForte(cs);
            (r.gagnant.None? <==> r.carte == null)
            && (r.gagnant.None? <==> forall j | 0 <= j < |cs| :: cs[j] == null)
            && (r.gagnant.Some? ==> r.carte == cs[r.gagnant.valeur])
            && (r.carte != null ==> forall j | 0 <= j < |cs| && cs[j] != null :: Rang(cs[j]) <= Rang(r.carte))
            && (r.carte != null && r.gagnant.Some? ==>
                  forall j | 0 <= j < r.gagnant.valeur && cs[j] != null :: Rang(cs[j]) < Rang(r.carte))
  {
    if cs != [] {
      PlusForteProprietes(cs[..|cs| - 1]);
      assert forall i | 0 <= i < |cs| - 1 :: cs[..|cs| - 1][i] == cs[i];
    }
  }

  /** What the lowest-card scan finds: symmetric to `PlusForteProprietes`. */
  lemma {:induction false} PlusFaibleProprietes(cs: seq<Carte?>)
    ensures var r := PlusFaible(cs);
            (r.gagnant.None? <==> r.carte == null)
            && (r.gagnant.None? <==> forall j | 0 <= j < |cs| :: cs[j] == null)
            && (r.gagnant.Some? ==> r.carte == cs[r.gagnant.valeur])
            && (r.carte != null ==> forall j | 0 <= j < |cs| && cs[j] != null :: Rang(r.carte) <= Rang(cs[j]))
            && (r.carte != null && r.gagnant.Some? ==>
                  forall j | 0 <= j < r.gagnant.valeur && cs[j] != null :: Rang(r.carte) < Rang(cs[j]))
  {
    if cs != [] {
      PlusFaibleProprietes(cs[..|cs| - 1]);
      assert forall i | 0 <= i < |cs| - 1 :: cs[..|cs| - 1][i] == cs[i];
    }
  }

  /** The highest-card scan over a prefix one player longer. */
  lemma PlusForteEtape(cs: seq<Carte?>, i: nat)
    requires i < |cs|
    ensures PlusForte(cs[..i + 1]) ==
              var e := PlusForte(cs[..i]);
              if cs[i] != null && (e.carte == null || cs[i].ComparerForce(e.carte) > 0) then Duel(Some(i), cs[i])
              else e
  {
    assert cs[..i + 1][..i] == cs[..i];
  }

  /** The lowest-card scan over a prefix one player longer. */
  lemma PlusFaibleEtape(cs: seq<Carte?>, i: nat)
    requires i < |cs|
    ensures PlusFaible(cs[..i + 1]) ==
              var e := PlusFaible(cs[..i]);
              if cs[i] != null && (e.carte == null || cs[i].ComparerForce(e.carte) < 0) then Duel(Some(i), cs[i])
              else e
  {
    assert cs[..i + 1][..i] == cs[..i];
  }

  /** `evaluerCartePlusHaute(joueurs, couleur)`. */
  function PlusHauteCouleur(mains: seq<seq<Carte>>, couleur: Couleur): Duel {
    PlusForte(Hautes(mains, ParCouleur(couleur)))
  }

  /** `evaluerCartePlusBasse(joueurs, couleur)`. */
  function PlusBasseCouleur(mains: seq<seq<Carte>>, couleur: Couleur): Duel {
    PlusFaible(Basses(mains, couleur))
  }

  /** Highest of a colour in the game's terms: nobody wins iff nobody holds
      the colour; otherwise no card of the colour held by any player beats
      the winner's highest card of the colour. */
  lemma AucuneCarteNeBatLaPlusHaute(mains: seq<seq<Carte>>, couleur: Couleur)
    ensures var r := PlusHauteCouleur(mains, couleur);
            (r.gagnant.None? <==>
               forall j, k | 0 <= j < |mains| && 0 <= k < |mains[j]| :: mains[j][k].GetCouleur() != couleur)
            && (r.gagnant.Some? ==>
                  r.carte != null && r.carte == PlusHaute(mains[r.gagnant.valeur], ParCouleur(couleur))
                  && forall j, k | 0 <= j < |mains| && 0 <= k < |mains[j]| && mains[j][k].GetCouleur() == couleur ::
                       Rang(mains[j][k]) <= Rang(r.carte))
  {
    var hautes := Hautes(mains, ParCouleur(couleur));
    PlusForteProprietes(hautes);
    forall j, k | 0 <= j < |mains| && 0 <= k < |mains[j]| && mains[j][k].GetCouleur() == couleur
      ensures hautes[j] != null && Rang(mains[j][k]) <= Rang(hautes[j])
    {
      assert Retenue(ParCouleur(couleur), mains[j][k]);
    }
  }

  /** Lowest of a colour in the game's terms: nobody wins iff nobody holds
      the colour; otherwise no card of the colour held by any player is
      weaker than the winner's lowest card of the colour. */
  lemma AucuneCarteSousLaPlusBasse(mains: seq<seq<Carte>>, couleur: Couleur)
    ensures var r := PlusBasseCouleur(mains, couleur);
            (r.gagnant.None? <==>
               forall j, k | 0 <= j < |mains| && 0 <= k < |mains[j]| :: mains[j][k].GetCouleur() != couleur)
            && (r.gagnant.Some? ==>
                  r.carte != null && r.carte == PlusBasse(mains[r.gagnant.valeur], couleur)
                  && forall j, k | 0 <= j < |mains| && 0 <= k < |mains[j]| && mains[j][k].GetCouleur() == couleur ::
                       Rang(r.carte) <= Rang(mains[j][k]))
  {
    var basses := Basses(mains, couleur);
    PlusFaibleProprietes(basses);
    forall j, k | 0 <= j < |mains| && 0 <= k < |mains[j]| && mains[j][k].GetCouleur() == couleur
      ensures basses[j] != null && Rang(basses[j]) <= Rang(mains[j][k])
    {
    }
  }

  // ---------------------------------------------------------------------
  // Joker holder

  /** `evaluerPossessionJoker`: the first player whose Jest holds a Joker. */
  function PremierJoker(mains: seq<seq<Carte>>): (r: Option<nat>)
    ensures r.None? <==> forall j | 0 <= j < |mains| :: !ContientJoker(mains[j])
    ensures r.Some? ==> r.valeur < |mains| && ContientJoker(mains[r.valeur])
    ensures r.Some? ==> forall j | 0 <= j < r.valeur :: !ContientJoker(mains[j])
  {
    if mains == [] then None
    else
      var k := PremierJoker(mains[..|mains| - 1]);
      assert forall i | 0 <= i < |mains| - 1 :: mains[..|mains| - 1][i] == mains[i];
      if k.Some? then k
      else if ContientJoker(mains[|mains| - 1]) then Some(|mains| - 1)
      else None
  }

  // ---------------------------------------------------------------------
  // Best score

  /** The scan of `evaluerMeilleurScore` over the players' highest cards,
      whether each is considered, and their stored scores.  The running
      maximum starts at `Integer.MIN_VALUE`.  On an equal score the Java code
      dereferences the current winner and both highest cards without a null
      check, so a tie with no current winner (a first score of
      `Integer.MIN_VALUE`) or with a missing highest card throws a
      NullPointerException. */
  function MeilleurScore(hautes: seq<Carte?>, candidats: seq<bool>, scores: seq<int>): (r: Resultat<Course>)
    requires |hautes| == |scores| && |candidats| == |scores|
    ensures r.Ok? && r.valeur.gagnant.Some? ==> r.valeur.gagnant.valeur < |scores|
    ensures r.Echec? ==> r.erreur == ReferenceNulle
  {
    if scores == [] then Ok(Course(None, ScoreMinimal))
    else
      var j := |scores| - 1;
      var e := MeilleurScore(hautes[..j], candidats[..j], scores[..j]);
      EtapeScore(e, j, hautes, candidats, scores)
  }

  /** One player of the best-score scan. */
  function EtapeScore(e: Resultat<Course>, j: nat, hautes: seq<Carte?>, candidats: seq<bool>, scores: seq<int>): (r: Resultat<Course>)
    requires |hautes| == |scores| && |candidats| == |scores| && j < |scores|
    requires e.Ok? && e.valeur.gagnant.Some? ==> e.valeur.gagnant.valeur < j
    ensures r.Ok? && r.valeur.gagnant.Some? ==> r.valeur.gagnant.valeur <= j
    ensures r.Echec? ==> r == e || r.erreur == ReferenceNulle
  {
    if e.Echec? || !candidats[j] then e
    else if scores[j] > e.valeur.max then Ok(Course(Some(j), scores[j]))
    else if scores[j] == e.valeur.max then
      if e.valeur.gagnant.None? then Echec(ReferenceNulle)
      else
        var c1 := hautes[e.valeur.gagnant.valeur];
        var c2 := hautes[j];
        if c1 == null || c2 == null then Echec(ReferenceNulle)
        else if c2.ComparerForce(c1) > 0 then Ok(Course(Some(j), scores[j]))
        else e
    else e
  }

  /** The best-score scan over a prefix one player longer. */
  lemma MeilleurScoreEtape(hautes: seq<Carte?>, candidats: seq<bool>, scores: seq<int>, i: nat)
    requires |hautes| == |scores| && |candidats| == |scores| && i < |scores|
    ensures var e := MeilleurScore(hautes[..i], candidats[..i], scores[..i]);
            (e.Ok? && e.valeur.gagnant.Some? ==> e.valeur.gagnant.valeur < i)
            && MeilleurScore(hautes[..i + 1], candidats[..i + 1], scores[..i + 1]) == EtapeScore(e, i, hautes, candidats, scores)
  {
    var h, c, s := hautes[..i + 1], candidats[..i + 1], scores[..i + 1];
    assert h[..i] == hautes[..i] && c[..i] == candidats[..i] && s[..i] == scores[..i];
    var e := MeilleurScore(hautes[..i], candidats[..i], scores[..i]);
    assert EtapeScore(e, i, h, c, s) == EtapeScore(e, i, hautes, candidats, scores);
  }

  /** Once the best-score scan has thrown, it has thrown for the whole list. */
  lemma {:induction false} MeilleurScoreEchecDefinitif(hautes: seq<Carte?>, candidats: seq<bool>, scores: seq<int>, k: nat)
    requires |hautes| == |scores| && |candidats| == |scores| && k <= |scores|
    requires MeilleurScore(hautes[..k], candidats[..k], scores[..k]).Echec?
    ensures MeilleurScore(hautes, candidats, scores).Echec?
    decreases |scores| - k
  {
    if k < |scores| {
      MeilleurScoreEtape(hautes, candidats, scores, k);
      MeilleurScoreEchecDefinitif(hautes, candidats, scores, k + 1);
    } else {
      assert hautes[..k] == hautes && candidats[..k] == candidats && scores[..k] == scores;
    }
  }

  /** What the best-score scan finds when it does not throw: a considered
      player with the highest score of all considered players, or nobody
      when no considered score reaches `Integer.MIN_VALUE`. */
  lemma {:induction false} MeilleurScoreMaximal(hautes: seq<Carte?>, candidats: seq<bool>, scores: seq<int>)
    requires |hautes| == |scores| && |candidats| == |scores|
    ensures var r := MeilleurScore(hautes, candidats, scores);
            (r.Ok? ==> r.valeur.max >= ScoreMinimal)
            && (r.Ok? && r.valeur.gagnant.None? ==> r.valeur.max == ScoreMinimal)
            && (r.Ok? && r.valeur.gagnant.Some? ==>
                  candidats[r.valeur.gagnant.valeur] && scores[r.valeur.gagnant.valeur] == r.valeur.max)
            && (r.Ok? ==> forall j | 0 <= j < |scores| && candidats[j] :: scores[j] <= r.valeur.max)
            && (r.Ok? && r.valeur.gagnant.None? ==>
                  forall j | 0 <= j < |scores| && candidats[j] :: scores[j] < ScoreMinimal)
  {
    if scores != [] {
      var j := |scores| - 1;
      MeilleurScoreMaximal(hautes[..j], candidats[..j], scores[..j]);
      assert forall i | 0 <= i < j :: candidats[..j][i] == candidats[i] && scores[..j][i] == scores[i];
    }
  }

  /** The best-score tie-break: every other considered player with the
      winning score has a highest card, no stronger than the winner's, and
      strictly weaker when that player comes first. */
  lemma {:induction false} MeilleurScoreDepartage(hautes: seq<Carte?>, candidats: seq<bool>, scores: seq<int>)
    requires |hautes| == |scores| && |candidats| == |scores|
    ensures var r := MeilleurScore(hautes, candidats, scores);
            r.Ok? && r.valeur.gagnant.Some? ==>
              var g := r.valeur.gagnant.valeur;
              forall j | 0 <= j < |scores| && j != g && candidats[j] && scores[j] == r.valeur.max ::
                hautes[j] != null && hautes[g] != null
                && Rang(hautes[j]) <= Rang(hautes[g])
                && (j < g ==> Rang(hautes[j]) < Rang(hautes[g]))
  {
    if scores != [] {
      var j := |scores| - 1;
      MeilleurScoreDepartage(hautes[..j], candidats[..j], scores[..j]);
      MeilleurScoreMaximal(hautes[..j], candidats[..j], scores[..j]);
      assert forall i | 0 <= i < j ::
        hautes[..j][i] == hautes[i] && candidats[..j][i] == candidats[i] && scores[..j][i] == scores[i];
    }
  }

  /** With every considered score above `Integer.MIN_VALUE` and every
      considered player holding a highest card, the best-score scan does
      not throw, and it finds a winner iff some player is considered. */
  lemma {:induction false} MeilleurScoreSansErreur(hautes: seq<Carte?>, candidats: seq<bool>, scores: seq<int>)
    requires |hautes| == |scores| && |candidats| == |scores|
    requires forall j | 0 <= j < |scores| && candidats[j] :: scores[j] > ScoreMinimal && hautes[j] != null
    ensures MeilleurScore(hautes, candidats, scores).Ok?
    ensures MeilleurScore(hautes, candidats, scores).valeur.gagnant.None? <==>
              forall j | 0 <= j < |scores| :: !candidats[j]
  {
    if scores != [] {
      var j := |scores| - 1;
      assert forall i | 0 <= i < j ::
        hautes[..j][i] == hautes[i] && candidats[..j][i] == candidats[i] && scores[..j][i] == scores[i];
      MeilleurScoreSansErreur(hautes[..j], candidats[..j], scores[..j]);
      MeilleurScoreMaximal(hautes[..j], candidats[..j], scores[..j]);
    }
  }

  /** `evaluerMeilleurScore(joueurs, sansJoker)` over the players' cards and
      stored scores. */
  function MeilleurJest(mains: seq<seq<Carte>>, scores: seq<int>, sansJoker: bool): (r: Resultat<Course>)
    requires |scores| == |mains|
    ensures r.Ok? && r.valeur.gagnant.Some? ==> r.valeur.gagnant.valeur < |mains|
  {
    MeilleurScore(Hautes(mains, Toutes), Candidats(mains, sansJoker), scores)
  }

  /** In the game's terms: when every considered player has a non-empty
      Jest and a score above `Integer.MIN_VALUE`, the rule does not throw;
      it designates nobody iff nobody is considered, and otherwise a
      considered player with the highest score among the considered ones. */
  lemma MeilleurJestGagnant(mains: seq<seq<Carte>>, scores: seq<int>, sansJoker: bool)
    requires |scores| == |mains|
    requires forall j | 0 <= j < |mains| && !(sansJoker && ContientJoker(mains[j])) ::
               scores[j] > ScoreMinimal && mains[j] != []
    ensures var r := MeilleurJest(mains, scores, sansJoker);
            r.Ok?
            && (r.valeur.gagnant.None? <==> forall j | 0 <= j < |mains| :: sansJoker && ContientJoker(mains[j]))
            && (r.valeur.gagnant.Some? ==>
                  var g := r.valeur.gagnant.valeur;
                  !(sansJoker && ContientJoker(mains[g]))
                  && forall j | 0 <= j < |mains| && !(sansJoker && ContientJoker(mains[j])) :: scores[j] <= scores[g])
  {
    var hautes, candidats := Hautes(mains, Toutes), Candidats(mains, sansJoker);
    forall j | 0 <= j < |mains| && candidats[j] ensures hautes[j] != null {
      PlusHauteGlobale(mains[j]);
    }
    MeilleurScoreSansErreur(hautes, candidats, scores);
    MeilleurScoreMaximal(hautes, candidats, scores);
  }

  // ---------------------------------------------------------------------
  // evaluer

  /** The winner's position `evaluer` designates for a condition, or its exception. */
  function Evalue(cond: ConditionTrophee, mains: seq<seq<Carte>>, scores: seq<int>): (r: Resultat<Option<nat>>)
    requires |scores| == |mains|
    ensures r.Ok? && r.valeur.Some? ==> r.valeur.valeur < |mains|
  {
    match cond
    case MAJORITY_AS => Ok(MajoriteValeur(mains, 1).gagnant)
    case MAJORITY_DEUX => Ok(MajoriteValeur(mains, 2).gagnant)
    case MAJORITY_TROIS => Ok(MajoriteValeur(mains, 3).gagnant)
    case MAJORITY_QUATRE => Ok(MajoriteValeur(mains, 4).gagnant)
    case HIGHEST_PIQUE => Ok(PlusHauteCouleur(mains, PIQUE).gagnant)
    case HIGHEST_TREFLE => Ok(PlusHauteCouleur(mains, TREFLE).gagnant)
    case HIGHEST_CARREAU => Ok(PlusHauteCouleur(mains, CARREAU).gagnant)
    case HIGHEST_COEUR => Ok(PlusHauteCouleur(mains, COEUR).gagnant)
    case LOWEST_PIQUE => Ok(PlusBasseCouleur(mains, PIQUE).gagnant)
    case LOWEST_TREFLE => Ok(PlusBasseCouleur(mains, TREFLE).gagnant)
    case LOWEST_CARREAU => Ok(PlusBasseCouleur(mains, CARREAU).gagnant)
    case LOWEST_COEUR => Ok(PlusBasseCouleur(mains, COEUR).gagnant)
    case HAS_JOKER => Ok(PremierJoker(mains))
    case BEST_JEST => Gagnant(MeilleurJest(mains, scores, false))
    case BEST_JEST_NO_JOKER => Gagnant(MeilleurJest(mains, scores, true))
  }

  /** The winner of a best-score scan, or its exception. */
  function Gagnant(r: Resultat<Course>): Resultat<Option<nat>> {
    match r
    case Ok(c) => Ok(c.gagnant)
    case Echec(e) => Echec(e)
  }

  /** Only the best-score conditions can throw. */
  lemma SeulMeilleurJestEchoue(cond: ConditionTrophee, mains: seq<seq<Carte>>, scores: seq<int>)
    requires |scores| == |mains|
    requires cond != BEST_JEST && cond != BEST_JEST_NO_JOKER
    ensures Evalue(cond, mains, scores).Ok?
  {
  }

  /** The player a rule's result designates, or its exception. */
  function Joueur(js: seq<Joueur>, r: Resultat<Option<nat>>): Resultat<Joueur?>
    requires r.Ok? && r.valeur.Some? ==> r.valeur.valeur < |js|
  {
    match r
    case Ok(g) => Ok(Designe(js, g))
    case Echec(e) => Echec(e)
  }

  // ---------------------------------------------------------------------
  // The Java loops over the players

  /** `briserEgaliteMajorite(j1, j2, valeur)`. */
  method BriserEgaliteMajorite(j1: Joueur, j2: Joueur, valeur: int) returns (j: Joueur)
    ensures j == if GagneEgalite(PlusHaute(j1.jest.cartes, ParValeur(valeur)), PlusHaute(j2.jest.cartes, ParValeur(valeur)))
                 then j2 else j1
  {
    var carte1 := j1.jest.GetCartePlusHauteValeur(valeur);
    var carte2 := j2.jest.GetCartePlusHauteValeur(valeur);
    if carte1 == null {
      return j2;
    }
    if carte2 == null {
      return j1;
    }
    if carte2.ComparerForce(carte1) > 0 {
      j := j2;
    } else {
      j := j1;
    }
  }

  /** `evaluerMajorite(joueurs, valeur)`. */
  method EvaluerMajorite(js: seq<Joueur>, valeur: int) returns (gagnant: Joueur?)
    ensures gagnant == Designe(js, MajoriteValeur(MainsDe(js), valeur).gagnant)
  {
    ghost var mains := MainsDe(js);
    ghost var comptes, hautes := Comptes(mains, valeur), Hautes(mains, ParValeur(valeur));
    gagnant := null;
    var maxCount := 0;
    for i := 0 to |js|
      invariant maxCount == Majorite(comptes[..i], hautes[..i]).max
      invariant gagnant == Designe(js, Majorite(comptes[..i], hautes[..i]).gagnant)
    {
      MajoriteEtape(comptes, hautes, i);
      var count := js[i].jest.CompterCartesValeur(valeur);
      if count > maxCount {
        maxCount := count;
        gagnant := js[i];
      } else if count == maxCount && count > 0 {
        gagnant := BriserEgaliteMajorite(gagnant, js[i], valeur);
      }
    }
    assert comptes[..|js|] == comptes && hautes[..|js|] == hautes;
    assert MainsDe(js) == mains;
  }

  /** `evaluerCartePlusHaute(joueurs, couleur)`. */
  method EvaluerCartePlusHaute(js: seq<Joueur>, couleur: Couleur) returns (gagnant: Joueur?)
    ensures gagnant == Designe(js, PlusHauteCouleur(MainsDe(js), couleur).gagnant)
  {
    ghost var cs := Hautes(MainsDe(js), ParCouleur(couleur));
    gagnant := null;
    var carteMax: Carte? := null;
    for i := 0 to |js|
      invariant carteMax == PlusForte(cs[..i]).carte
      invariant gagnant == Designe(js, PlusForte(cs[..i]).gagnant)
    {
      PlusForteEtape(cs, i);
      var carte := js[i].jest.GetCartePlusHauteCouleur(couleur);
      if carte != null && (carteMax == null || carte.ComparerForce(carteMax) > 0) {
        carteMax := carte;
        gagnant := js[i];
      }
    }
    assert cs[..|js|] == cs;
    assert Hautes(MainsDe(js), ParCouleur(couleur)) == cs;
  }

  /** `evaluerCartePlusBasse(joueurs, couleur)`. */
  method EvaluerCartePlusBasse(js: seq<Joueur>, couleur: Couleur) returns (gagnant: Joueur?)
    ensures gagnant == Designe(js, PlusBasseCouleur(MainsDe(js), couleur).gagnant)
  {
    ghost var cs := Basses(MainsDe(js), couleur);
    gagnant := null;
    var carteMin: Carte? := null;
    for i := 0 to |js|
      invariant carteMin == PlusFaible(cs[..i]).carte
      invariant gagnant == Designe(js, PlusFaible(cs[..i]).gagnant)
    {
      PlusFaibleEtape(cs, i);
      var carte := js[i].jest.GetCartePlusBasse(couleur);
      if carte != null && (carteMin == null || carte.ComparerForce(carteMin) < 0) {
        carteMin := carte;
        gagnant := js[i];
      }
    }
    assert cs[..|js|] == cs;
    assert Basses(MainsDe(js), couleur) == cs;
  }

  /** `evaluerPossessionJoker(joueurs)`. */
  method EvaluerPossessionJoker(js: seq<Joueur>) returns (gagnant: Joueur?)
    ensures gagnant == Designe(js, PremierJoker(MainsDe(js)))
  {
    ghost var mains := MainsDe(js);
    for i := 0 to |js|
      invariant forall k | 0 <= k < i :: !ContientJoker(mains[k])
    {
      var b := js[i].jest.ContientJoker();
      if b {
        assert MainsDe(js) == mains;
        assert ContientJoker(mains[i]);
        return js[i];
      }
    }
    assert MainsDe(js) == mains;
    return null;
  }

  /** `evaluerMeilleurScore(joueurs, sansJoker)`; the NullPointerException
      of a tie against no winner or a missing highest card is an `Echec`. */
  method EvaluerMeilleurScore(js: seq<Joueur>, sansJoker: bool) returns (r: Resultat<Joueur?>)
    ensures r == Joueur(js, Gagnant(MeilleurJest(MainsDe(js), ScoresDe(js), sansJoker)))
  {
    ghost var mains, scores := MainsDe(js), ScoresDe(js);
    ghost var hautes, candidats := Hautes(mains, Toutes), Candidats(mains, sansJoker);
    var gagnant, nulle;
    ghost var i;
    ghost var m := MeilleurJest(mains, scores, sansJoker);
    gagnant, nulle, i := ParcourirScores(js, sansJoker, mains, hautes, candidats, scores);
    if nulle {
      MeilleurScoreEchecDefinitif(hautes, candidats, scores, i);
      assert m == Echec(ReferenceNulle);
      r := Echec(ReferenceNulle);
    } else {
      assert hautes[..i] == hautes && candidats[..i] == candidats && scores[..i] == scores;
      assert m == Ok(m.valeur) && gagnant == Designe(js, m.valeur.gagnant);
      r := Ok(gagnant);
    }
    assert r == Joueur(js, Gagnant(m));
  }

  /** The loop of `evaluerMeilleurScore`: it stops after the last player or
      at the first examination that throws. */
  method ParcourirScores(js: seq<Joueur>, sansJoker: bool, ghost mains: seq<seq<Carte>>,
                         ghost hautes: seq<Carte?>, ghost candidats: seq<bool>, ghost scores: seq<int>)
    returns (gagnant: Joueur?, nulle: bool, ghost i: nat)
    requires mains == MainsDe(js) && scores == ScoresDe(js)
    requires hautes == Hautes(mains, Toutes) && candidats == Candidats(mains, sansJoker)
    ensures MainsDe(js) == mains && ScoresDe(js) == scores
    ensures i <= |js| && (nulle || i == |js|)
    ensures nulle <==> MeilleurScore(hautes[..i], candidats[..i], scores[..i]).Echec?
    ensures !nulle ==> gagnant == Designe(js, MeilleurScore(hautes[..i], candidats[..i], scores[..i]).valeur.gagnant)
  {
    ghost var e := MeilleurScore(hautes[..0], candidats[..0], scores[..0]);
    gagnant := null;
    var maxScore := ScoreMinimal;
    // set where the Java code throws a NullPointerException
    nulle := false;
    var k := 0;
    while k < |js| && !nulle
      invariant 0 <= k <= |js|
      invariant MainsDe(js) == mains && ScoresDe(js) == scores
      invariant e == MeilleurScore(hautes[..k], candidats[..k], scores[..k])
      invariant nulle <==> e.Echec?
      invariant e.Ok? ==> maxScore == e.valeur.max && gagnant == Designe(js, e.valeur.gagnant)
    {
      MeilleurScoreEtape(hautes, candidats, scores, k);
      gagnant, maxScore, nulle := ExaminerJoueur(js, k, gagnant, maxScore, sansJoker, e, mains, hautes, candidats, scores);
      e := EtapeScore(e, k, hautes, candidats, scores);
      k := k + 1;
    }
    i := k;
  }

  /** The body of the loop of `evaluerMeilleurScore` for the player at
      position `i`: the new winner and maximum, or whether the player's
      examination throws.  It performs one step of the best-score scan. */
  method ExaminerJoueur(js: seq<Joueur>, i: nat, gagnant: Joueur?, maxScore: int, sansJoker: bool,
                        ghost e: Resultat<Course>, ghost mains: seq<seq<Carte>>, ghost hautes: seq<Carte?>, ghost candidats: seq<bool>, ghost scores: seq<int>)
    returns (gagnant': Joueur?, maxScore': int, nulle: bool)
    requires i < |js| && |hautes| == |js| && |candidats| == |js| && |scores| == |js|
    requires mains == MainsDe(js) && scores == ScoresDe(js)
    requires hautes == Hautes(mains, Toutes) && candidats == Candidats(mains, sansJoker)
    requires e.Ok? && (e.valeur.gagnant.Some? ==> e.valeur.gagnant.valeur < i)
    requires maxScore == e.valeur.max && gagnant == Designe(js, e.valeur.gagnant)
    ensures var suivant := EtapeScore(e, i, hautes, candidats, scores);
            (nulle <==> suivant.Echec?)
            && (suivant.Ok? ==> maxScore' == suivant.valeur.max && gagnant' == Designe(js, suivant.valeur.gagnant))
  {
    gagnant', maxScore', nulle := gagnant, maxScore, false;
    var j := js[i];
    assert j.jest.cartes == mains[i] && j.scoreCalcule == scores[i];
    assert hautes[i] == PlusHaute(mains[i], Toutes);
    if e.valeur.gagnant.Some? {
      var g := e.valeur.gagnant.valeur;
      assert gagnant == js[g] && js[g].jest.cartes == mains[g];
      assert hautes[g] == PlusHaute(mains[g], Toutes);
    }
    var joker := j.jest.ContientJoker();
    assert candidats[i] == !(sansJoker && joker);
    if sansJoker && joker {
      return;
    }
    if j.GetScore() > maxScore {
      maxScore' := j.GetScore();
      gagnant' := j;
    } else if j.GetScore() == maxScore {
      if gagnant == null {
        // gagnant.getJest() on null
        nulle := true;
        return;
      }
      var c1 := gagnant.jest.GetCartePlusHauteGlobale();
      var c2 := j.jest.GetCartePlusHauteGlobale();
      if c1 == null || c2 == null {
        // c2.comparerForce(c1) dereferences both
        nulle := true;
      } else if c2.ComparerForce(c1) > 0 {
        gagnant' := j;
      }
    }
  }

  /** `evaluer(joueurs)`: the switch over the fifteen conditions. */
  method Evaluer(cond: ConditionTrophee, js: seq<Joueur>) returns (r: Resultat<Joueur?>)
    ensures r == Joueur(js, Evalue(cond, MainsDe(js), ScoresDe(js)))
  {
    var g: Joueur?;
    match cond {
      case MAJORITY_AS => g := EvaluerMajorite(js, 1);
      case MAJORITY_DEUX => g := EvaluerMajorite(js, 2);
      case MAJORITY_TROIS => g := EvaluerMajorite(js, 3);
      case MAJORITY_QUATRE => g := EvaluerMajorite(js, 4);
      case HIGHEST_PIQUE => g := EvaluerCartePlusHaute(js, PIQUE);
      case HIGHEST_TREFLE => g := EvaluerCartePlusHaute(js, TREFLE);
      case HIGHEST_CARREAU => g := EvaluerCartePlusHaute(js, CARREAU);
      case HIGHEST_COEUR => g := EvaluerCartePlusHaute(js, COEUR);
      case LOWEST_PIQUE => g := EvaluerCartePlusBasse(js, PIQUE);
      case LOWEST_TREFLE => g := EvaluerCartePlusBasse(js, TREFLE);
      case LOWEST_CARREAU => g := EvaluerCartePlusBasse(js, CARREAU);
      case LOWEST_COEUR => g := EvaluerCartePlusBasse(js, COEUR);
      case HAS_JOKER => g := EvaluerPossessionJoker(js);
      case BEST_JEST => r := EvaluerMeilleurScore(js, false); return;
      case BEST_JEST_NO_JOKER => r := EvaluerMeilleurScore(js, true); return;
    }
    r := Ok(g);
  }

  /** `Trophee.evaluerCondition(joueurs)`: the trophy's condition decides. */
  method EvaluerCondition(trophee: Carte, js: seq<Joueur>) returns (r: Resultat<Joueur?>)
    requires trophee.genre.Trophee?
    ensures r == Joueur(js, Evalue(trophee.genre.condition, MainsDe(js), ScoresDe(js)))
  {
    r := Evaluer(trophee.genre.condition, js);
  }
}
