/** A whole game (Partie.java): checking the number of players, seeding the
    trophies, the rounds until the draw pile is empty, and the end of the
    game: the last cards handed out, the Jests revealed, the base scores, the
    trophies awarded in list order, the final scores and the winner.

    Console output is not modelled; the random trophy conditions and the
    shuffles are arbitrary choices, so that what is proved holds for all of
    them.
 */
module Parties {
  import opened Resultats
  import opened Cartes
  import opened Paquets
  import opened Pioches
  import opened Jests
  import opened Joueurs
  import opened Offres
  import opened Conditions
  import opened Calculateur
  import opened Score
  import opened Tours
  import Gestionnaire

  // ---------------------------------------------------------------------
  // Setting up

  /** How many trophies `initialiser` seeds: two with three players, one otherwise. */
  function NombreTrophees(n: int): nat {
    if n == 3 then 2 else 1
  }

  /** The trophy `t` stands for the seed card `c`: a seed that is a trophy
      is kept, any other card becomes a trophy of its colour and face value. */
  predicate TropheeDe(t: Carte, c: Carte) {
    t.genre.Trophee?
    && (c.genre.Trophee? ==> t == c)
    && (!c.genre.Trophee? ==> t.genre.couleur == c.GetCouleur() && t.genre.valeur == c.GetValeurFaciale())
  }

  /** The deck `initialiser` builds holds no trophy, so every seed card is
      turned into a new trophy. */
  lemma PaquetSansTrophee(deck: seq<Carte>, c: Carte)
    requires Genres(deck) == GenresInitiaux() && c in deck
    ensures !c.genre.Trophee?
  {
    var i :| 0 <= i < |deck| && deck[i] == c;
    assert Genres(deck)[i] == c.genre;
    PaquetInitial(c.genre);
  }

  // ---------------------------------------------------------------------
  // The rounds

  /** The rounds `demarrer` plays from round `numero` on, with `taille`
      cards in the draw pile and `n` players, when the residue of each round
      holds one card per player: Ok of the round counter once the pile is
      empty, or the IllegalStateException of the first round whose draw the
      pile cannot serve. */
  function Deroulement(taille: nat, n: nat, numero: int): (r: Resultat<int>)
    requires n >= 1
    ensures r.Ok? ==> r.valeur >= numero
    decreases taille
  {
    if taille == 0 then Ok(numero)
    else if Tirage(numero, n) > taille then Echec(EtatIllegal)
    else Deroulement(taille - Tirage(numero, n), n, numero + 1)
  }

  /** After the first round, a pile of k·n cards lasts exactly k more rounds. */
  lemma {:induction false} DeroulementMultiple(k: nat, n: nat, numero: int)
    requires n >= 1 && numero >= 2
    ensures Deroulement(k * n, n, numero) == Ok(numero + k)
  {
    if k > 0 {
      assert k * n - n == (k - 1) * n;
      DeroulementMultiple(k - 1, n, numero + 1);
    }
  }

  /** After the first round, a pile that is not a multiple of n makes a
      later round fail. */
  lemma {:induction false} DeroulementReste(k: nat, r: nat, n: nat, numero: int)
    requires n >= 1 && numero >= 2 && 0 < r < n
    ensures Deroulement(k * n + r, n, numero) == Echec(EtatIllegal)
  {
    if k > 0 {
      assert k * n + r - n == (k - 1) * n + r;
      DeroulementReste(k - 1, r, n, numero + 1);
    }
  }

  /** The whole game from round 1: with a pile of (k + 2)·n cards the game
      plays k + 1 rounds and ends with the counter at k + 2; a non-empty
      pile of fewer than 2n cards, or one whose size after the first round is
      not a multiple of n, makes some round fail. */
  lemma DeroulementPartie(k: nat, r: nat, n: nat)
    requires n >= 1 && r < n
    ensures Deroulement(0, n, 1) == Ok(1)
    ensures r == 0 ==> Deroulement((k + 2) * n, n, 1) == Ok(k + 2)
    ensures r > 0 ==> Deroulement((k + 2) * n + r, n, 1) == Echec(EtatIllegal)
    ensures forall t: nat | 0 < t < 2 * n :: Deroulement(t, n, 1) == Echec(EtatIllegal)
  {
    assert (k + 2) * n == k * n + 2 * n;
    if r == 0 {
      DeroulementMultiple(k, n, 2);
    } else {
      DeroulementReste(k, r, n, 2);
    }
  }

  /** No card of the list is outside `s`. */
  ghost predicate Dans(cs: seq<Carte>, s: set<Carte>) {
    forall c | c in cs :: c in s
  }

  /** No card of the lists is outside `s`. */
  ghost predicate ToutesDans(m: seq<seq<Carte>>, s: set<Carte>) {
    forall k | 0 <= k < |m| :: Dans(m[k], s)
  }

  /** No card left in the offers is outside `s`. */
  ghost predicate OffresDans(e: map<Joueur, Emplacements>, s: set<Carte>) {
    forall q | q in e :: (e[q].visible != null ==> e[q].visible in s) && (e[q].cachee != null ==> e[q].cachee in s)
  }

  /** After the taking phase, the Jests hold only cards that were already
      in the Jests or the offers. */
  lemma JestsApresPrises(js: seq<Joueur>, e0: map<Joueur, Emplacements>, m0: seq<seq<Carte>>,
                         source: map<Joueur, Joueur>, pris: map<Joueur, Carte>, s: set<Carte>)
    requires |m0| == |js| && pris.Keys == source.Keys
    requires forall p | p in source :: source[p] in e0 && e0[source[p]].Tient(pris[p])
    requires OffresDans(e0, s) && ToutesDans(m0, s)
    ensures ToutesDans(Avances(js, m0, pris), s)
  {
    var m := Avances(js, m0, pris);
    forall k | 0 <= k < |m|
      ensures Dans(m[k], s)
    {
      if js[k] in pris {
        var p := js[k];
        assert source[p] in e0 && e0[source[p]].Tient(pris[p]);
        assert m[k] == m0[k] + [pris[p]];
      }
    }
  }

  /** Every player's offer holds exactly one card, a card of `s`. */
  ghost predicate UneCarteDans(js: seq<Joueur>, e: map<Joueur, Emplacements>, s: set<Carte>) {
    forall k | 0 <= k < |js| :: js[k] in e && e[js[k]].Unique() && e[js[k]].Cartes()[0] in s
  }

  /** After the taking phase, every offer holds one of the cards it held. */
  lemma OffresApresPrises(js: seq<Joueur>, e0: map<Joueur, Emplacements>, e: map<Joueur, Emplacements>, s: set<Carte>)
    requires Restantes(js, e0, e) && OffresDans(e0, s)
    ensures UneCarteDans(js, e, s)
  {
    forall k | 0 <= k < |js|
      ensures e[js[k]].Cartes()[0] in s
    {
      assert e0[js[k]].PerdUne(e[js[k]]);
    }
  }

  /** The residue of offers that hold one card each, a card of `s`: one
      card per player, each of them in `s`. */
  lemma ResidusDans(js: seq<Joueur>, e: map<Joueur, Emplacements>, ordre: seq<Joueur>, s: set<Carte>)
    requires SansDoublon(js) && e.Keys == Ensemble(js) && Enumere(ordre, e.Keys)
    requires UneCarteDans(js, e, s)
    ensures forall i | 0 <= i < |ordre| :: ordre[i] in e
    ensures |Restes(ordre, e)| == |js| && Dans(Restes(ordre, e), s)
  {
    forall i | 0 <= i < |ordre|
      ensures ordre[i] in e && e[ordre[i]].Unique()
      ensures e[ordre[i]].Cartes()[0] in s
    {
      assert ordre[i] in Ensemble(ordre);
      var k :| 0 <= k < |js| && js[k] == ordre[i];
    }
    RestesUnParOffre(ordre, e);
    CardinalEnsemble(ordre);
    CardinalEnsemble(js);
  }

  // ---------------------------------------------------------------------
  // The end of the game

  /** The Jests once player i has received residual card i, for every i
      below both the number of players and the number of residual cards. */
  function Recuperees(m: seq<seq<Carte>>, res: seq<Carte>): (r: seq<seq<Carte>>)
    ensures |r| == |m|
  {
    seq(|m|, k requires 0 <= k < |m| => if k < |res| then m[k] + [res[k]] else m[k])
  }

  /** Giving player i residual card i extends the recovery by one card. */
  lemma RecupereeSuivante(m: seq<seq<Carte>>, res: seq<Carte>, i: nat)
    requires i < |m| && i < |res|
    ensures var r := Recuperees(m, res[..i]);
            r[i := r[i] + [res[i]]] == Recuperees(m, res[..i + 1])
  {
    var r, u, r2 := Recuperees(m, res[..i]), Recuperees(m, res[..i])[i := Recuperees(m, res[..i])[i] + [res[i]]],
                    Recuperees(m, res[..i + 1]);
    forall k | 0 <= k < |m|
      ensures u[k] == r2[k]
    {
      if k < i {
        assert res[..i + 1][k] == res[..i][k];
      } else if k == i {
        assert res[..i + 1][k] == res[i];
      }
    }
  }

  /** Residual cards beyond the last player are never handed out. */
  lemma RecupereesTronquees(m: seq<seq<Carte>>, res: seq<Carte>, i: nat)
    requires i <= |m| && i <= |res| && (i == |m| || i == |res|)
    ensures Recuperees(m, res[..i]) == Recuperees(m, res)
  {
    forall k | 0 <= k < |m|
      ensures Recuperees(m, res[..i])[k] == Recuperees(m, res)[k]
    {
      if k < i {
        assert res[..i][k] == res[k];
      }
    }
  }

  /** The conditions of a list of trophies. */
  function ConditionsDe(ts: seq<Carte>): (cs: seq<ConditionTrophee>)
    requires forall i | 0 <= i < |ts| :: ts[i].genre.Trophee?
    ensures |cs| == |ts|
  {
    seq(|ts|, i requires 0 <= i < |ts| && ts[i].genre.Trophee? => ts[i].genre.condition)
  }

  /** What `attribuerTrophees` decides, trophy after trophy: each trophy's
      winner (a position in the player list, or nobody), up to the first
      condition that throws, whose exception ends the loop. */
  datatype Attribution = Attribution(gagnants: seq<Option<nat>>, echec: Option<Erreur>)

  /** The result of each condition of `conds` over the players' cards and
      stored scores: a position in the player list, nobody, or an exception. */
  function Evaluations(conds: seq<ConditionTrophee>, mains: seq<seq<Carte>>, scores: seq<int>): (rs: seq<Resultat<Option<nat>>>)
    requires |scores| == |mains|
    ensures |rs| == |conds|
  {
    if conds == [] then []
    else Evaluations(conds[..|conds| - 1], mains, scores) + [Evalue(conds[|conds| - 1], mains, scores)]
  }

  /** The i-th result is the i-th condition's. */
  lemma {:induction false} EvaluationDe(conds: seq<ConditionTrophee>, mains: seq<seq<Carte>>, scores: seq<int>, i: nat)
    requires |scores| == |mains| && i < |conds|
    ensures Evaluations(conds, mains, scores)[i] == Evalue(conds[i], mains, scores)
  {
    var k := |conds| - 1;
    var avant := Evaluations(conds[..k], mains, scores);
    assert Evaluations(conds, mains, scores) == avant + [Evalue(conds[k], mains, scores)];
    if i < k {
      EvaluationDe(conds[..k], mains, scores, i);
      assert conds[..k][i] == conds[i];
    }
  }

  /** The i-th result is the condition of the i-th trophy's. */
  lemma EvaluationDeTrophee(ts: seq<Carte>, mains: seq<seq<Carte>>, scores: seq<int>, i: nat)
    requires forall k | 0 <= k < |ts| :: ts[k].genre.Trophee?
    requires |scores| == |mains| && i < |ts|
    ensures Evaluations(ConditionsDe(ts), mains, scores)[i] == Evalue(ts[i].genre.condition, mains, scores)
  {
    EvaluationDe(ConditionsDe(ts), mains, scores, i);
  }

  /** The attribution of the trophies whose conditions gave the results
      `rs`, in list order: the winners up to the first exception, which
      ends the loop. */
  function Attribuer(rs: seq<Resultat<Option<nat>>>): (a: Attribution)
    ensures |a.gagnants| <= |rs|
    ensures a.echec.None? ==> |a.gagnants| == |rs|
    ensures forall i | 0 <= i < |a.gagnants| :: rs[i] == Ok(a.gagnants[i])
    ensures a.echec.Some? ==> |a.gagnants| < |rs| && rs[|a.gagnants|] == Echec(a.echec.valeur)
  {
    if rs == [] then Attribution([], None)
    else
      var a := Attribuer(rs[..|rs| - 1]);
      if a.echec.Some? then a
      else
        match rs[|rs| - 1]
        case Ok(g) => Attribution(a.gagnants + [g], None)
        case Echec(e) => Attribution(a.gagnants, Some(e))
  }

  /** Every trophy the conditions award goes to one of the players. */
  lemma AttributionBornee(conds: seq<ConditionTrophee>, mains: seq<seq<Carte>>, scores: seq<int>)
    requires |scores| == |mains|
    ensures var a := Attribuer(Evaluations(conds, mains, scores));
            forall i | 0 <= i < |a.gagnants| :: a.gagnants[i].Some? ==> a.gagnants[i].valeur < |mains|
  {
    var rs := Evaluations(conds, mains, scores);
    var a := Attribuer(rs);
    forall i | 0 <= i < |a.gagnants| && a.gagnants[i].Some?
      ensures a.gagnants[i].valeur < |mains|
    {
      EvaluationDe(conds, mains, scores, i);
    }
  }

  /** Only a best-score condition can stop the attribution of the trophies. */
  lemma AttributionSansMeilleurJest(conds: seq<ConditionTrophee>, mains: seq<seq<Carte>>, scores: seq<int>)
    requires |scores| == |mains|
    requires forall i | 0 <= i < |conds| :: conds[i] != BEST_JEST && conds[i] != BEST_JEST_NO_JOKER
    ensures Attribuer(Evaluations(conds, mains, scores)).echec.None?
  {
    var a := Attribuer(Evaluations(conds, mains, scores));
    if a.echec.Some? {
      EvaluationDe(conds, mains, scores, |a.gagnants|);
      SeulMeilleurJestEchoue(conds[|a.gagnants|], mains, scores);
    }
  }

  /** The trophies among the first |gagnants| of `ts` that went to the player at position `k`. */
  function TropheesGagnes(ts: seq<Carte>, gagnants: seq<Option<nat>>, k: nat): (r: seq<Carte>)
    requires |gagnants| <= |ts|
    ensures |r| <= |gagnants|
  {
    if gagnants == [] then []
    else
      var i := |gagnants| - 1;
      TropheesGagnes(ts, gagnants[..i], k) + (if gagnants[i] == Some(k) then [ts[i]] else [])
  }

  /** Each awarded trophy goes to exactly one player: the trophies the
      players won number exactly the trophies awarded to somebody. */
  lemma {:induction false} TropheesPartages(ts: seq<Carte>, gagnants: seq<Option<nat>>, n: nat)
    requires |gagnants| <= |ts|
    requires forall i | 0 <= i < |gagnants| :: gagnants[i].Some? ==> gagnants[i].valeur < n
    ensures SommeGagnes(ts, gagnants, n) == Attribues(gagnants)
  {
    if gagnants != [] {
      var i := |gagnants| - 1;
      assert forall j | 0 <= j < i :: gagnants[..i][j] == gagnants[j];
      TropheesPartages(ts, gagnants[..i], n);
      SommeGagnesEtape(ts, gagnants, n);
    } else {
      SommeGagnesVide(ts, n);
    }
  }

  /** How many of the trophies went to somebody. */
  function Attribues(gagnants: seq<Option<nat>>): nat {
    if gagnants == [] then 0
    else Attribues(gagnants[..|gagnants| - 1]) + (if gagnants[|gagnants| - 1].Some? then 1 else 0)
  }

  /** The total number of trophies won by the players at positions below `n`. */
  function SommeGagnes(ts: seq<Carte>, gagnants: seq<Option<nat>>, n: nat): nat
    requires |gagnants| <= |ts|
  {
    if n == 0 then 0 else SommeGagnes(ts, gagnants, n - 1) + |TropheesGagnes(ts, gagnants, n - 1)|
  }

  /** Before any trophy is awarded, nobody has won any. */
  lemma {:induction false} SommeGagnesVide(ts: seq<Carte>, n: nat)
    ensures SommeGagnes(ts, [], n) == 0
  {
    if n > 0 {
      SommeGagnesVide(ts, n - 1);
    }
  }

  /** One more trophy adds one to the total of the player who won it and nothing to the others'. */
  lemma {:induction false} SommeGagnesEtape(ts: seq<Carte>, gagnants: seq<Option<nat>>, n: nat)
    requires 0 < |gagnants| <= |ts|
    ensures var i := |gagnants| - 1;
            SommeGagnes(ts, gagnants, n)
            == SommeGagnes(ts, gagnants[..i], n) + (if gagnants[i].Some? && gagnants[i].valeur < n then 1 else 0)
  {
    if n > 0 {
      SommeGagnesEtape(ts, gagnants, n - 1);
    }
  }

  /** The trophies of each player once the first |gagnants| trophies of `ts` are awarded. */
  function TropheesApres(t0: seq<seq<Carte>>, ts: seq<Carte>, gagnants: seq<Option<nat>>): (t: seq<seq<Carte>>)
    requires |gagnants| <= |ts|
    ensures |t| == |t0|
  {
    seq(|t0|, k requires 0 <= k < |t0| => t0[k] + TropheesGagnes(ts, gagnants, k))
  }

  /** Before any trophy is awarded, every player keeps their trophies. */
  lemma TropheesApresVide(t0: seq<seq<Carte>>, ts: seq<Carte>)
    ensures TropheesApres(t0, ts, []) == t0
  {
    assert forall k | 0 <= k < |t0| :: TropheesApres(t0, ts, [])[k] == t0[k];
  }

  /** Awarding one more trophy adds it to its winner's trophies and to nobody else's. */
  lemma TropheesApresEtape(t0: seq<seq<Carte>>, ts: seq<Carte>, gagnants: seq<Option<nat>>, g: Option<nat>,
                           t1: seq<seq<Carte>>, t2: seq<seq<Carte>>)
    requires |gagnants| < |ts| && t1 == TropheesApres(t0, ts, gagnants) && |t2| == |t1|
    requires forall k | 0 <= k < |t1| :: t2[k] == t1[k] + (if g == Some(k) then [ts[|gagnants|]] else [])
    ensures t2 == TropheesApres(t0, ts, gagnants + [g])
  {
    assert (gagnants + [g])[..|gagnants|] == gagnants;
    assert forall k | 0 <= k < |t0| :: t2[k] == TropheesApres(t0, ts, gagnants + [g])[k];
  }

  /** The score of each player, computed over their cards and trophies. */
  function ScoresAttendus(mains: seq<seq<Carte>>, trophees: seq<seq<Carte>>, sansTrophees: bool): (r: seq<int>)
    requires |trophees| == |mains|
    ensures |r| == |mains|
  {
    seq(|mains|, k requires 0 <= k < |mains| => ScoreJest(mains[k], trophees[k], sansTrophees))
  }

  /** Players whose stored scores are those of their Jests hold the
      expected scores. */
  lemma ScoresCalcules(js: seq<Joueur>, sansTrophees: bool)
    requires forall k | 0 <= k < |js| ::
               js[k].scoreCalcule == ScoreJest(js[k].jest.cartes, js[k].jest.trophees, sansTrophees)
    ensures ScoresDe(js) == ScoresAttendus(MainsDe(js), TropheesDe(js), sansTrophees)
  {
  }

  /** The trophies of each player's Jest, in list order. */
  function TropheesDe(js: seq<Joueur>): (t: seq<seq<Carte>>)
    reads JestsDe(js)`trophees
    ensures |t| == |js|
    ensures forall i | 0 <= i < |js| :: t[i] == js[i].jest.trophees
  {
    if js == [] then []
    else
      var k := |js| - 1;
      assert forall i | 0 <= i < k :: js[..k][i] == js[i];
      TropheesDe(js[..k]) + [js[k].jest.trophees]
  }

  /** Once an attribution has stopped, further results change nothing. */
  lemma {:induction false} AttributionArretee(rs: seq<Resultat<Option<nat>>>, i: nat)
    requires i <= |rs| && Attribuer(rs[..i]).echec.Some?
    ensures Attribuer(rs) == Attribuer(rs[..i])
  {
    if i < |rs| {
      var k := |rs| - 1;
      assert rs[..k][..i] == rs[..i];
      AttributionArretee(rs[..k], i);
    } else {
      assert rs[..i] == rs;
    }
  }

  /** The cards of all the lists. */
  ghost function CartesMains(m: seq<seq<Carte>>): set<Carte> {
    set k, c | 0 <= k < |m| && c in m[k] :: c
  }

  /** Handing out residual cards taken from `s` keeps the Jests' cards in `s`. */
  lemma RecupereesDans(m: seq<seq<Carte>>, res: seq<Carte>, s: set<Carte>)
    requires ToutesDans(m, s) && Dans(res, s)
    ensures ToutesDans(Recuperees(m, res), s)
  {
    forall k | 0 <= k < |m|
      ensures Dans(Recuperees(m, res)[k], s)
    {
      if k < |res| {
        assert res[k] in res;
      }
    }
  }

  /** The offers of a round built from hands whose cards are in `s` are
      complete, filed under their owners, distinct, and hold cards of `s`. */
  lemma OffresPretes(tour: Tour, mains: map<Joueur, seq<Carte>>, s: set<Carte>)
    requires tour.offres.Keys == Ensemble(tour.joueurs)
    requires forall i | 0 <= i < |tour.joueurs| ::
               tour.joueurs[i] in tour.offres && tour.joueurs[i] in mains
               && tour.OffreDe(tour.offres[tour.joueurs[i]], tour.joueurs[i], mains[tour.joueurs[i]])
    requires forall i, j | 0 <= i < j < |tour.joueurs| :: tour.offres[tour.joueurs[i]] != tour.offres[tour.joueurs[j]]
    requires forall c | c in CartesDes(mains) :: c in s
    ensures tour.Valide()
    ensures forall p | p in tour.offres :: tour.offres[p].EstComplete()
    ensures OffresDans(tour.EtatOffres(), s)
  {
    var js := tour.joueurs;
    forall p | p in tour.offres
      ensures tour.offres[p].proprietaire == p && tour.offres[p].EstComplete()
      ensures tour.offres[p].carteVisible in s && tour.offres[p].carteCachee in s
    {
      var i :| 0 <= i < |js| && js[i] == p;
      var o, main := tour.offres[p], mains[p];
      AutreComplete(main, o.carteCachee);
      assert o.carteVisible in main && o.carteCachee in main;
    }
    forall p, q | p in tour.offres && q in tour.offres && p != q
      ensures tour.offres[p] != tour.offres[q]
    {
      var i :| 0 <= i < |js| && js[i] == p;
      var j :| 0 <= j < |js| && js[j] == q;
      if i > j {
        assert tour.offres[js[j]] != tour.offres[js[i]];
      }
    }
  }

  /** Every card of the lists is face up. */
  ghost predicate FacesVisibles(m: seq<seq<Carte>>)
    reads CartesMains(m)`estVisible
  {
    forall k, c | 0 <= k < |m| && c in m[k] :: c.estVisible
  }

  /** The end of the game, as values: each player i received residual
      card i of `res` when there is one, giving the Jests `mains`; the
      trophies `ts` were evaluated in list order over the scores without
      trophies; a condition that throws stops the attribution, with the base
      scores stored; otherwise the stored scores count the trophies won. */
  ghost predicate FinPartie(ts: seq<Carte>, m0: seq<seq<Carte>>, t0: seq<seq<Carte>>, res: seq<Carte>,
                            mains: seq<seq<Carte>>, trophees: seq<seq<Carte>>, scores: seq<int>, s: Statut)
  {
    (forall i | 0 <= i < |ts| :: ts[i].genre.Trophee?) && |m0| == |t0|
    && var m := Recuperees(m0, res);
       var base := ScoresAttendus(m, t0, true);
       var a := Attribuer(Evaluations(ConditionsDe(ts), m, base));
       mains == m && trophees == TropheesApres(t0, ts, a.gagnants)
       && (a.echec.Some? ==> s == Echoue(a.echec.valeur) && scores == base)
       && (a.echec.None? ==> s == Reussi && scores == ScoresAttendus(m, trophees, false))
  }

  /** The steps of `terminerPartie`, each as its loop states it, give
      the end of the game. */
  lemma FinPartieAtteinte(ts: seq<Carte>, m0: seq<seq<Carte>>, t0: seq<seq<Carte>>, res: seq<Carte>,
                          mains: seq<seq<Carte>>, base: seq<int>, a: Attribution,
                          trophees: seq<seq<Carte>>, scores: seq<int>, s: Statut)
    requires forall i | 0 <= i < |ts| :: ts[i].genre.Trophee?
    requires |m0| == |t0| && mains == Recuperees(m0, res) && base == ScoresAttendus(mains, t0, true)
    requires a == Attribuer(Evaluations(ConditionsDe(ts), mains, base))
    requires trophees == TropheesApres(t0, ts, a.gagnants)
    requires s == if a.echec.Some? then Echoue(a.echec.valeur) else Reussi
    requires a.echec.Some? ==> scores == base
    requires a.echec.None? ==> scores == ScoresAttendus(mains, trophees, false)
    ensures FinPartie(ts, m0, t0, res, mains, trophees, scores, s)
  {
  }

  class Partie {
    var joueurs: seq<Joueur>
    const paquet: Paquet
    var pioche: Pioche?
    var tropheesEnJeu: seq<Carte>
    var tourActuel: int
    var extensionActive: bool
    const calculateur: CalculateurScore
    /** The residue of the last round; null before the first round ends. */
    var cartesResiduelles: Option<seq<Carte>>
    /** Every card the game can still move: those of the pile, of the
        residue and of the Jests when the game was set up. */
    ghost var cartesEnJeu: set<Carte>

    /** A new game: no player, an empty deck, no pile, no trophy, round 0,
        no extension, a fresh calculator. */
    constructor ()
      ensures joueurs == [] && fresh(paquet) && paquet.cartes == [] && pioche == null
      ensures tropheesEnJeu == [] && tourActuel == 0 && !extensionActive && cartesResiduelles == None
      ensures fresh(calculateur) && Coherente()
    {
      joueurs := [];
      paquet := new Paquet();
      pioche := null;
      tropheesEnJeu := [];
      tourActuel := 0;
      extensionActive := false;
      calculateur := new CalculateurScore();
      cartesResiduelles := None;
      cartesEnJeu := {};
    }

    /** What the Java types guarantee: the calculator has its five visitors
        and the trophy list holds trophies. */
    ghost predicate Coherente()
      reads this`tropheesEnJeu
    {
      calculateur.Valid() && forall i | 0 <= i < |tropheesEnJeu| :: tropheesEnJeu[i].genre.Trophee?
    }

    /** The calculator's visitors. */
    function Visiteurs(): set<Visiteur> {
      set v | v in calculateur.visiteurs
    }

    /** The residue, a null list counting as empty. */
    function Residus(): seq<Carte>
      reads this`cartesResiduelles
    {
      if cartesResiduelles.Some? then cartesResiduelles.valeur else []
    }

    /** The state in which the game can be played: a pile, at least one
        player, distinct players with distinct Jests, and every card that a
        round or the end of the game can move is one of `cartesEnJeu`. */
    ghost predicate Pret()
      reads this`joueurs, this`pioche, this`tropheesEnJeu, this`cartesResiduelles, this`cartesEnJeu
      reads pioche, JestsDe(joueurs)
    {
      Coherente() && pioche != null && |joueurs| >= 1 && SansDoublon(joueurs) && JestsDistincts(joueurs)
      && Dans(pioche.cartes, cartesEnJeu) && Dans(Residus(), cartesEnJeu)
      && ToutesDans(MainsDe(joueurs), cartesEnJeu)
    }

    // -------------------------------------------------------------------
    // initialiser

    /** `initialiser(joueurs, avecExtension)`: fails with
        IllegalArgumentException, changing nothing, unless there are 3 or 4
        players.  Otherwise builds and shuffles the deck, deals the first
        one or two cards of it as trophy seeds, turns each seed that is not
        a trophy into a new trophy of its colour and face value with some
        condition, and builds and shuffles the pile from the rest of the
        deck.  The deck keeps its cards. */
    method Initialiser(js: seq<Joueur>, avecExtension: bool)
      returns (s: Statut, ghost deck: seq<Carte>, ghost graines: seq<Carte>, ghost nouveaux: seq<Carte>)
      requires Coherente()
      modifies this`joueurs, this`extensionActive, this`tropheesEnJeu, this`pioche, this`cartesEnJeu, paquet
      ensures Coherente()
      ensures |js| < 3 || |js| > 4 ==> s == Echoue(ArgumentIllegal) && unchanged(this) && unchanged(paquet)
      ensures 3 <= |js| <= 4 ==> s == Reussi && joueurs == js && extensionActive == avecExtension
      ensures 3 <= |js| <= 4 ==>
                Genres(deck) == GenresInitiaux() && Distinctes(deck) && multiset(graines + paquet.cartes) == multiset(deck)
      ensures 3 <= |js| <= 4 ==>
                |graines| == NombreTrophees(|js|) && forall i | 0 <= i < |graines| :: !graines[i].genre.Trophee?
      ensures 3 <= |js| <= 4 ==>
                tropheesEnJeu == old(tropheesEnJeu) + nouveaux && |nouveaux| == |graines|
                && forall i | 0 <= i < |graines| :: fresh(nouveaux[i]) && TropheeDe(nouveaux[i], graines[i])
      ensures 3 <= |js| <= 4 ==>
                pioche != null && fresh(pioche) && multiset(pioche.cartes) == multiset(paquet.cartes)
                && |pioche.cartes| == 21 - |graines|
      ensures tourActuel == old(tourActuel) && cartesResiduelles == old(cartesResiduelles)
      ensures (3 <= |js| <= 4 && SansDoublon(js) && JestsDistincts(js)) ==> Pret()
    {
      if |js| < 3 || |js| > 4 {
        return Echoue(ArgumentIllegal), [], [], [];
      }
      joueurs := js;
      extensionActive := avecExtension;
      var nbTrophees := if |js| == 3 then 2 else 1;
      var seeds;
      seeds, deck := PreparerPaquet(avecExtension, nbTrophees);
      graines := seeds;
      nouveaux := PlacerTrophees(seeds);
      CreerPioche();
      s := Reussi;
    }

    /** The pile part of `initialiser`: a new pile holding the deck's cards,
        shuffled; the cards in play are then those of the pile, of the
        residue and of the Jests. */
    method CreerPioche()
      modifies this`pioche, this`cartesEnJeu
      ensures pioche != null && fresh(pioche) && multiset(pioche.cartes) == multiset(paquet.cartes)
      ensures |pioche.cartes| == |paquet.cartes|
      ensures Dans(pioche.cartes, cartesEnJeu) && Dans(Residus(), cartesEnJeu)
      ensures ToutesDans(MainsDe(joueurs), cartesEnJeu)
    {
      var p := new Pioche(Some(paquet.GetCartes()));
      p.Melanger();
      pioche := p;
      cartesEnJeu := (set c | c in p.cartes) + (set c | c in Residus()) + CartesMains(MainsDe(joueurs));
    }

    /** The deck part of `initialiser`: the deck is built and shuffled and
        its first `nombre` cards are dealt as trophy seeds; none of them is a
        trophy. */
    method PreparerPaquet(avecExtension: bool, nombre: nat) returns (graines: seq<Carte>, ghost deck: seq<Carte>)
      requires 1 <= nombre <= 2
      modifies paquet
      ensures Genres(deck) == GenresInitiaux() && Distinctes(deck)
      ensures |graines| == nombre && multiset(graines + paquet.cartes) == multiset(deck)
      ensures |paquet.cartes| == 21 - nombre
      ensures forall i | 0 <= i < |graines| :: !graines[i].genre.Trophee?
    {
      paquet.Initialiser(avecExtension);
      deck := paquet.cartes;
      paquet.Melanger();
      PaquetInitial(Joker);
      assert |paquet.cartes| == |multiset(deck)| == 21;
      var cartesTrophees := paquet.Distribuer(nombre);
      graines := cartesTrophees.valeur;
      forall i | 0 <= i < |graines|
        ensures !graines[i].genre.Trophee?
      {
        assert graines[i] in multiset(graines + paquet.cartes);
        PaquetSansTrophee(deck, graines[i]);
      }
    }

    /** The trophy loop of `initialiser`: each seed that is a trophy is
        added to the trophies in play; any other seed becomes a new trophy
        of its colour and face value, with some condition. */
    method PlacerTrophees(graines: seq<Carte>) returns (ghost nouveaux: seq<Carte>)
      requires Coherente()
      modifies this`tropheesEnJeu
      ensures Coherente()
      ensures tropheesEnJeu == old(tropheesEnJeu) + nouveaux && |nouveaux| == |graines|
      ensures forall i | 0 <= i < |graines| ::
                TropheeDe(nouveaux[i], graines[i]) && (!graines[i].genre.Trophee? ==> fresh(nouveaux[i]))
    {
      ghost var t0 := tropheesEnJeu;
      nouveaux := [];
      for i := 0 to |graines|
        invariant tropheesEnJeu == t0 + nouveaux && |nouveaux| == i
        invariant Coherente()
        invariant forall j | 0 <= j < i ::
                    TropheeDe(nouveaux[j], graines[j]) && (!graines[j].genre.Trophee? ==> fresh(nouveaux[j]))
      {
        var carte := graines[i];
        if carte.genre.Trophee? {
          tropheesEnJeu := tropheesEnJeu + [carte];
          nouveaux := nouveaux + [carte];
        } else {
          // genererConditionAleatoire
          var condition: ConditionTrophee :| true;
          var trophee := new Carte(Trophee(carte.GetCouleur(), carte.GetValeurFaciale(), condition));
          tropheesEnJeu := tropheesEnJeu + [trophee];
          nouveaux := nouveaux + [trophee];
        }
      }
    }

    // -------------------------------------------------------------------
    // demarrer, executerTour, verifierFinPartie

    /** `verifierFinPartie`: the game is over when the pile is empty. */
    predicate VerifierFinPartie()
      requires pioche != null
      reads this, pioche
    {
      pioche.EstVide()
    }

    /** `demarrer`: rounds numbered from 1, one after another while the pile
        is not empty, then the end of the game.  A round that fails ends the
        game with its exception; this happens exactly when `Deroulement`
        fails.  Otherwise each player took one card per round, and the end
        of the game started from the Jests `mainsFin`. */
    method Demarrer() returns (s: Statut, gagnant: Joueur?, ghost mainsFin: seq<seq<Carte>>, ghost tropheesFin: seq<seq<Carte>>)
      requires Pret()
      modifies this`tourActuel, this`cartesResiduelles, pioche, JestsDe(joueurs)`cartes, JestsDe(joueurs)`trophees
      modifies Ensemble(joueurs)`scoreCalcule, Visiteurs()`scorePartiel, Visiteurs()`valeursTraitees, cartesEnJeu`estVisible
      ensures var d := Deroulement(|old(pioche.cartes)|, |joueurs|, 1);
              (d.Echec? ==> s == Echoue(d.erreur) && gagnant == null)
              && (d.Ok? ==>
                    tourActuel == d.valeur && pioche.cartes == [] && |mainsFin| == |joueurs|
                    && (forall k | 0 <= k < |joueurs| ::
                          |mainsFin[k]| == |old(MainsDe(joueurs))[k]| + d.valeur - 1
                          && mainsFin[k][..|old(MainsDe(joueurs))[k]|] == old(MainsDe(joueurs))[k])
                    && Terminee(mainsFin, tropheesFin, Residus(), s, gagnant))
    {
      ghost var m0 := MainsDe(joueurs);
      ghost var taille0 := |pioche.cartes|;
      Commencer(m0, taille0);
      var r := JouerTours(m0, taille0);
      if r.Echoue? {
        return r, null, MainsDe(joueurs), TropheesDe(joueurs);
      }
      s, gagnant, mainsFin, tropheesFin := Finir(m0);
    }

    /** The end of `demarrer` once the pile is empty, with the Jests `m0` of
        the start of the game. */
    method Finir(ghost m0: seq<seq<Carte>>) returns (s: Statut, gagnant: Joueur?, ghost mainsFin: seq<seq<Carte>>,
                                                    ghost tropheesFin: seq<seq<Carte>>)
      requires Pret() && |m0| == |joueurs|
      modifies JestsDe(joueurs)`cartes, JestsDe(joueurs)`trophees, Ensemble(joueurs)`scoreCalcule
      modifies Visiteurs()`scorePartiel, Visiteurs()`valeursTraitees, cartesEnJeu`estVisible
      ensures joueurs == old(joueurs) && tourActuel == old(tourActuel) && pioche.cartes == old(pioche.cartes)
      ensures mainsFin == old(MainsDe(joueurs)) && Terminee(mainsFin, tropheesFin, Residus(), s, gagnant)
    {
      mainsFin, tropheesFin := MainsDe(joueurs), TropheesDe(joueurs);
      s, gagnant := TerminerPartie();
    }

    /** `demarrer` numbers the first round 1. */
    method Commencer(ghost m0: seq<seq<Carte>>, ghost taille0: nat)
      requires Pret() && m0 == MainsDe(joueurs) && taille0 == |pioche.cartes|
      modifies this`tourActuel
      ensures joueurs == old(joueurs) && pioche == old(pioche) && EnJeu(m0, taille0)
    {
      tourActuel := 1;
      assert forall k | 0 <= k < |joueurs| :: MainsDe(joueurs)[k][..|m0[k]|] == m0[k];
    }

    /** The loop of `demarrer`, from the Jests `m0` and a pile of `taille0`
        cards at the start of round 1. */
    method JouerTours(ghost m0: seq<seq<Carte>>, ghost taille0: nat) returns (r: Statut)
      requires EnJeu(m0, taille0)
      modifies this`tourActuel, this`cartesResiduelles, pioche, JestsDe(joueurs)`cartes, cartesEnJeu`estVisible
      ensures joueurs == old(joueurs) && pioche == old(pioche) && Pret()
      ensures r.Echoue? ==> Deroulement(taille0, |joueurs|, 1) == Echec(r.erreur)
      ensures r.Reussi? ==>
                Deroulement(taille0, |joueurs|, 1) == Ok(tourActuel) && pioche.cartes == []
                && forall k | 0 <= k < |joueurs| ::
                     |MainsDe(joueurs)[k]| == |m0[k]| + tourActuel - 1 && MainsDe(joueurs)[k][..|m0[k]|] == m0[k]
    {
      while !VerifierFinPartie()
        invariant joueurs == old(joueurs) && pioche == old(pioche) && EnJeu(m0, taille0)
        decreases |pioche.cartes|
      {
        r := JouerTour(m0, taille0);
        if r.Echoue? {
          return;
        }
      }
      r := Reussi;
    }

    /** Between two rounds of `demarrer`, from the Jests `m0` and a pile of
        `taille0` cards at the start: the rounds left play out as the whole
        game would, and each player took one card per round played. */
    ghost predicate EnJeu(m0: seq<seq<Carte>>, taille0: nat)
      reads this, pioche, JestsDe(joueurs)
    {
      Pret() && tourActuel >= 1 && |m0| == |joueurs|
      && (tourActuel > 1 ==> cartesResiduelles.Some? && |cartesResiduelles.valeur| == |joueurs|)
      && Deroulement(|pioche.cartes|, |joueurs|, tourActuel) == Deroulement(taille0, |joueurs|, 1)
      && forall k | 0 <= k < |joueurs| ::
           |MainsDe(joueurs)[k]| == |m0[k]| + tourActuel - 1 && MainsDe(joueurs)[k][..|m0[k]|] == m0[k]
    }

    /** One pass of the loop of `demarrer`: a round that fails fails as the
        whole game does; one that succeeds draws from the pile and keeps the
        game in play. */
    method JouerTour(ghost m0: seq<seq<Carte>>, ghost taille0: nat) returns (r: Statut)
      requires EnJeu(m0, taille0) && !VerifierFinPartie()
      modifies this`tourActuel, this`cartesResiduelles, pioche, JestsDe(joueurs)`cartes, cartesEnJeu`estVisible
      ensures joueurs == old(joueurs) && pioche == old(pioche)
      ensures r.Echoue? ==> Pret() && Deroulement(taille0, |joueurs|, 1) == Echec(r.erreur)
      ensures r.Reussi? ==> EnJeu(m0, taille0) && |pioche.cartes| < old(|pioche.cartes|)
    {
      ghost var m1 := MainsDe(joueurs);
      ghost var d := Deroulement(|pioche.cartes|, |joueurs|, tourActuel);
      ghost var pris;
      r, pris := ExecuterTour();
      if r.Echoue? {
        assert r.erreur == EtatIllegal && d == Echec(EtatIllegal);
        return;
      }
      AvancesToutes(joueurs, m1, pris);
      forall k | 0 <= k < |joueurs|
        ensures |MainsDe(joueurs)[k]| == |m0[k]| + tourActuel && MainsDe(joueurs)[k][..|m0[k]|] == m0[k]
      {
        assert MainsDe(joueurs)[k] == m1[k] + [pris[joueurs[k]]];
        assert m1[k][..|m0[k]|] == m0[k];
      }
      tourActuel := tourActuel + 1;
    }

    /** `executerTour`: a round numbered `tourActuel` over this game's
        players and pile, with the stored residue after the first round;
        it deals, builds the offers, runs the taking phase and stores the
        new residue.  It fails exactly when the pile cannot serve the draw
        (IllegalStateException, the pile keeping its cards) or, after the
        first round, when the residue is short of one card per player
        (IndexOutOfBoundsException); a failed round changes no Jest. */
    method ExecuterTour() returns (s: Statut, ghost pris: map<Joueur, Carte>)
      requires Pret() && tourActuel >= 1
      modifies this`cartesResiduelles, pioche, JestsDe(joueurs)`cartes, cartesEnJeu`estVisible
      ensures Pret()
      ensures s.Echoue? <==>
                Tirage(tourActuel, |joueurs|) > |old(pioche.cartes)| || (tourActuel > 1 && |old(Residus())| < |joueurs|)
      ensures s.Echoue? ==> MainsDe(joueurs) == old(MainsDe(joueurs)) && cartesResiduelles == old(cartesResiduelles)
      ensures s.Echoue? ==>
                if Tirage(tourActuel, |joueurs|) > |old(pioche.cartes)|
                then s.erreur == EtatIllegal && pioche.cartes == old(pioche.cartes)
                else s.erreur == IndiceHorsBornes
      ensures s.Reussi? ==>
                pioche.cartes == old(pioche.cartes)[..|old(pioche.cartes)| - Tirage(tourActuel, |joueurs|)]
                && cartesResiduelles.Some? && |cartesResiduelles.valeur| == |joueurs|
                && (forall k | 0 <= k < |joueurs| :: joueurs[k] in pris)
                && MainsDe(joueurs) == Avances(joueurs, old(MainsDe(joueurs)), pris)
    {
      ghost var js, m0, p0 := joueurs, MainsDe(joueurs), pioche.cartes;
      pris := map[];
      var tour := new Tour(tourActuel, joueurs, pioche);
      if tourActuel > 1 && cartesResiduelles.Some? {
        tour.SetCartesResiduelles(cartesResiduelles.valeur);
      }
      var mains, pool := DistribuerTour(tour);
      if mains.Echec? {
        return Echoue(mains.erreur), pris;
      }
      ghost var p1 := pioche.cartes;
      assert MainsDe(joueurs) == m0;
      OffrirTour(tour, mains.valeur, pool);
      assert MainsDe(joueurs) == m0 && pioche.cartes == p1;
      pris := PrendreTour(tour);
      assert MainsDe(joueurs) == Avances(js, m0, pris) && pioche.cartes == p1;
      StockerResidus(tour);
      assert MainsDe(joueurs) == Avances(js, m0, pris) && pioche.cartes == p1;
      s := Reussi;
    }

    /** A new round of this game: its number, players and pile, the stored
        residue after the first round, no offer and nobody having played. */
    ghost predicate Nouveau(tour: Tour)
      reads this, tour
    {
      tour.numero == tourActuel && tour.joueurs == joueurs && tour.pioche == pioche
      && tour.cartesResiduelles == (if tourActuel > 1 then Residus() else [])
      && tour.offres == map[] && tour.joueursAyantJoue == {}
    }

    /** The dealing of a round: it fails when the pile cannot serve the draw
        or when the pooled cards are short of two per player; otherwise the
        hands are dealt from a pool of cards in play. */
    method DistribuerTour(tour: Tour) returns (r: Resultat<map<Joueur, seq<Carte>>>, ghost pool: seq<Carte>)
      requires Pret() && tourActuel >= 1 && Nouveau(tour)
      modifies pioche
      ensures joueurs == old(joueurs) && pioche == old(pioche) && tourActuel == old(tourActuel)
      ensures Pret() && Nouveau(tour) && MainsDe(joueurs) == old(MainsDe(joueurs))
      ensures r.Echec? <==>
                Tirage(tourActuel, |joueurs|) > |old(pioche.cartes)| || (tourActuel > 1 && |Residus()| < |joueurs|)
      ensures r.Echec? ==>
                if Tirage(tourActuel, |joueurs|) > |old(pioche.cartes)|
                then r.erreur == EtatIllegal && pioche.cartes == old(pioche.cartes)
                else r.erreur == IndiceHorsBornes
      ensures r.Ok? ==>
                pioche.cartes == old(pioche.cartes)[..|old(pioche.cartes)| - Tirage(tourActuel, |joueurs|)]
                && |pool| >= 2 * |joueurs| && r.valeur == Distribution(joueurs, pool) && Dans(pool, cartesEnJeu)
    {
      r, pool := Tirer(tour, pioche.cartes, tour.cartesResiduelles, cartesEnJeu);
    }

    /** The dealing of round `tour.numero` from the pile `p0` and the
        residue `r0`, whose cards are all in `s`. */
    method Tirer(tour: Tour, ghost p0: seq<Carte>, ghost r0: seq<Carte>, ghost s: set<Carte>)
      returns (r: Resultat<map<Joueur, seq<Carte>>>, ghost pool: seq<Carte>)
      requires tour.pioche.cartes == p0 && tour.cartesResiduelles == r0 && tour.numero >= 1
      requires tour.numero == 1 ==> r0 == []
      requires Dans(p0, s) && Dans(r0, s)
      modifies tour.pioche
      ensures r.Echec? <==>
                Tirage(tour.numero, |tour.joueurs|) > |p0| || (tour.numero > 1 && |r0| < |tour.joueurs|)
      ensures r.Echec? ==>
                if Tirage(tour.numero, |tour.joueurs|) > |p0|
                then r.erreur == EtatIllegal && tour.pioche.cartes == p0
                else r.erreur == IndiceHorsBornes
      ensures Tirage(tour.numero, |tour.joueurs|) <= |p0| ==>
                tour.pioche.cartes == p0[..|p0| - Tirage(tour.numero, |tour.joueurs|)]
      ensures Dans(tour.pioche.cartes, s)
      ensures r.Ok? ==> |pool| >= 2 * |tour.joueurs| && r.valeur == Distribution(tour.joueurs, pool) && Dans(pool, s)
    {
      r, pool := tour.DistribuerCartes();
      ghost var n := |tour.joueurs|;
      if Tirage(tour.numero, n) <= |p0| {
        if tour.numero != 1 {
          assert |pool| == |multiset(pool)| == |r0| + |Dessus(p0, n)|;
        }
        assert Dans(pool, s) by {
          forall c | c in pool
            ensures c in s
          {
            if tour.numero == 1 {
              var i :| 0 <= i < |pool| && pool[i] == c;
            } else {
              assert c in multiset(pool);
              if c !in r0 {
                var d := Dessus(p0, n);
                assert c in d;
                var i :| 0 <= i < |d| && d[i] == c;
              }
            }
          }
        }
      }
    }

    /** The offers of a round, one per player, built from the hands dealt
        from `pool`: complete, filed under their owners and holding cards
        in play. */
    method OffrirTour(tour: Tour, mains: map<Joueur, seq<Carte>>, ghost pool: seq<Carte>)
      requires Pret() && Nouveau(tour)
      requires |pool| >= 2 * |joueurs| && mains == Distribution(joueurs, pool) && Dans(pool, cartesEnJeu)
      modifies tour`offres, cartesEnJeu`estVisible
      ensures joueurs == old(joueurs) && pioche == old(pioche) && tourActuel == old(tourActuel)
      ensures Pret() && tour.joueursAyantJoue == {} && tour.joueurs == joueurs
      ensures pioche.cartes == old(pioche.cartes) && MainsDe(joueurs) == old(MainsDe(joueurs))
      ensures tour.Valide() && tour.offres.Keys == Ensemble(joueurs)
      ensures forall p | p in tour.offres :: tour.offres[p].EstComplete()
      ensures OffresDans(tour.EtatOffres(), cartesEnJeu)
      ensures forall o | o in tour.Offres() :: fresh(o)
      ensures SansDoublon(pool) ==>
                forall p | p in tour.offres :: p in mains && tour.FacesOffre(tour.offres[p], mains[p])
    {
      NouvellesOffres(tour, joueurs, mains, pool, cartesEnJeu);
    }

    /** The offers built from the hands dealt from `pool` to the players
        `js`, whose cards are all in `s`. */
    method NouvellesOffres(tour: Tour, ghost js: seq<Joueur>, mains: map<Joueur, seq<Carte>>,
                           ghost pool: seq<Carte>, ghost s: set<Carte>)
      requires js == tour.joueurs && SansDoublon(js) && tour.offres == map[]
      requires |pool| >= 2 * |js| && mains == Distribution(js, pool) && Dans(pool, s)
      modifies tour`offres, s`estVisible
      ensures tour.Valide() && tour.offres.Keys == Ensemble(js)
      ensures forall p | p in tour.offres :: tour.offres[p].EstComplete()
      ensures OffresDans(tour.EtatOffres(), s)
      ensures forall o | o in tour.Offres() :: fresh(o)
      ensures SansDoublon(pool) ==>
                forall p | p in tour.offres :: p in mains && tour.FacesOffre(tour.offres[p], mains[p])
    {
      DistributionMains(js, pool);
      DistributionDansPool(js, pool);
      if SansDoublon(pool) {
        PiocheDistincteMainsDisjointes(js, mains, pool);
      }
      tour.CreerOffres(mains);
      OffresPretes(tour, mains, s);
      forall o | o in tour.Offres()
        ensures fresh(o)
      {
        var p :| p in tour.offres && tour.offres[p] == o;
        var i :| 0 <= i < |js| && js[i] == p;
      }
    }

    /** The taking phase of a round: every player adds the card they took
        to their Jest, and every offer is left with one of its cards. */
    method PrendreTour(tour: Tour) returns (ghost pris: map<Joueur, Carte>)
      requires Pret() && tour.joueursAyantJoue == {} && tour.joueurs == joueurs
      requires tour.Valide() && tour.offres.Keys == Ensemble(joueurs)
      requires forall p | p in tour.offres :: tour.offres[p].EstComplete()
      requires OffresDans(tour.EtatOffres(), cartesEnJeu)
      modifies tour`joueursAyantJoue, tour.Offres()`carteVisible, tour.Offres()`carteCachee, JestsDe(joueurs)`cartes
      ensures joueurs == old(joueurs) && pioche == old(pioche) && tourActuel == old(tourActuel)
      ensures Pret() && tour.offres.Keys == Ensemble(joueurs) && UneCarteDans(joueurs, tour.EtatOffres(), cartesEnJeu)
      ensures pioche.cartes == old(pioche.cartes)
      ensures forall k | 0 <= k < |joueurs| :: joueurs[k] in pris
      ensures MainsDe(joueurs) == Avances(joueurs, old(MainsDe(joueurs)), pris)
    {
      pris := Prises(tour, joueurs, tour.EtatOffres(), MainsDe(joueurs), cartesEnJeu);
    }

    /** What the taking phase does to the Jests `m0` and the offers `e0` of
        the players `js`, whose cards are all in `s`. */
    method Prises(tour: Tour, ghost js: seq<Joueur>, ghost e0: map<Joueur, Emplacements>,
                  ghost m0: seq<seq<Carte>>, ghost s: set<Carte>) returns (ghost pris: map<Joueur, Carte>)
      requires js == tour.joueurs && SansDoublon(js) && |js| >= 1 && JestsDistincts(js)
      requires tour.Valide() && tour.offres.Keys == Ensemble(js) && tour.joueursAyantJoue == {}
      requires forall p | p in tour.offres :: tour.offres[p].EstComplete()
      requires e0 == tour.EtatOffres() && m0 == MainsDe(js) && OffresDans(e0, s) && ToutesDans(m0, s)
      modifies tour`joueursAyantJoue, tour.Offres()`carteVisible, tour.Offres()`carteCachee, JestsDe(js)`cartes
      ensures forall k | 0 <= k < |js| :: js[k] in pris
      ensures MainsDe(js) == Avances(js, m0, pris) && ToutesDans(MainsDe(js), s)
      ensures tour.EtatOffres().Keys == Ensemble(js) && UneCarteDans(js, tour.EtatOffres(), s)
    {
      ghost var source;
      source, pris := tour.ExecuterPrisesCartes();
      JestsApresPrises(js, e0, m0, source, pris, s);
      OffresApresPrises(js, e0, tour.EtatOffres(), s);
    }

    /** The residue a round leaves, one card per player, stored for the
        next round. */
    method StockerResidus(tour: Tour)
      requires Pret() && tour.offres.Keys == Ensemble(joueurs) && UneCarteDans(joueurs, tour.EtatOffres(), cartesEnJeu)
      modifies this`cartesResiduelles
      ensures joueurs == old(joueurs) && pioche == old(pioche) && tourActuel == old(tourActuel)
      ensures Pret() && MainsDe(joueurs) == old(MainsDe(joueurs)) && pioche.cartes == old(pioche.cartes)
      ensures cartesResiduelles.Some? && |cartesResiduelles.valeur| == |joueurs|
    {
      var residus, ordre := tour.GetCartesResiduelles();
      ResidusDans(joueurs, tour.EtatOffres(), ordre, cartesEnJeu);
      assert Dans(residus, cartesEnJeu) && |residus| == |joueurs|;
      ghost var mains := MainsDe(joueurs);
      cartesResiduelles := Some(residus);
      assert Residus() == residus;
      assert MainsDe(joueurs) == mains;
      assert Coherente() && JestsDistincts(joueurs) && ToutesDans(mains, cartesEnJeu);
    }

    // -------------------------------------------------------------------
    // terminerPartie

    /** The end of the game from the Jests `m0`, trophies `t0` and residue
        `res`, as `FinPartie` states it over this game's Jests and scores;
        every card of the Jests is face up; a failed attribution leaves no
        winner, a complete one the winner `determinerGagnant` picks. */
    ghost predicate Terminee(m0: seq<seq<Carte>>, t0: seq<seq<Carte>>, res: seq<Carte>, s: Statut, gagnant: Joueur?)
      reads this, JestsDe(joueurs), Ensemble(joueurs), CartesMains(MainsDe(joueurs))
    {
      FinPartie(tropheesEnJeu, m0, t0, res, MainsDe(joueurs), TropheesDe(joueurs), ScoresDe(joueurs), s)
      && FacesVisibles(MainsDe(joueurs))
      && (s.Echoue? ==> gagnant == null)
      && (s.Reussi? ==> gagnant == Designe(joueurs, Gestionnaire.GagnantPartie(MainsDe(joueurs), ScoresDe(joueurs)).gagnant))
    }

    /** `terminerPartie`, with the winner it determines. */
    method TerminerPartie() returns (s: Statut, gagnant: Joueur?)
      requires Pret()
      modifies JestsDe(joueurs)`cartes, JestsDe(joueurs)`trophees, Ensemble(joueurs)`scoreCalcule
      modifies Visiteurs()`scorePartiel, Visiteurs()`valeursTraitees, cartesEnJeu`estVisible
      ensures Terminee(old(MainsDe(joueurs)), old(TropheesDe(joueurs)), Residus(), s, gagnant)
    {
      ghost var m0, t0, res := MainsDe(joueurs), TropheesDe(joueurs), Residus();
      RecupererResidus();
      ghost var m := Recuperees(m0, res);
      RecupereesDans(m0, res, cartesEnJeu);
      assert Coherente() && MainsDe(joueurs) == m && TropheesDe(joueurs) == t0;
      RevelerJests();
      assert Coherente() && MainsDe(joueurs) == m && TropheesDe(joueurs) == t0 && FacesVisibles(m);
      ghost var base, a, t, scores;
      s, gagnant, base, a, t, scores := ConclurePartie(m, t0, res);
      FinPartieAtteinte(tropheesEnJeu, m0, t0, res, m, base, a, t, scores, s);
    }

    /** The scoring part of `terminerPartie`, over the revealed Jests `m`
        and the trophies `t0`: the scores without trophies `base`, the
        attribution `a` evaluated over them, the trophies `t` it gives and,
        when it completes, the final scores and the winner. */
    method ConclurePartie(ghost m: seq<seq<Carte>>, ghost t0: seq<seq<Carte>>, ghost res: seq<Carte>)
      returns (s: Statut, gagnant: Joueur?, ghost base: seq<int>, ghost a: Attribution,
               ghost t: seq<seq<Carte>>, ghost scores: seq<int>)
      requires Coherente() && SansDoublon(joueurs) && JestsDistincts(joueurs) && Residus() == res
      requires MainsDe(joueurs) == m && TropheesDe(joueurs) == t0 && FacesVisibles(m)
      modifies JestsDe(joueurs)`trophees, Ensemble(joueurs)`scoreCalcule
      modifies Visiteurs()`scorePartiel, Visiteurs()`valeursTraitees
      ensures MainsDe(joueurs) == m && TropheesDe(joueurs) == t && ScoresDe(joueurs) == scores && FacesVisibles(m)
      ensures base == ScoresAttendus(m, t0, true)
      ensures a == Attribuer(Evaluations(ConditionsDe(tropheesEnJeu), m, base))
      ensures t == TropheesApres(t0, tropheesEnJeu, a.gagnants)
      ensures a.echec.Some? ==> s == Echoue(a.echec.valeur) && scores == base && gagnant == null
      ensures a.echec.None? ==> s == Reussi && scores == ScoresAttendus(m, t, false)
                                && gagnant == Designe(joueurs, Gestionnaire.GagnantPartie(m, scores).gagnant)
      ensures Coherente() && Residus() == res
    {
      s, base, a, t := ScorerEtAttribuer(m, t0);
      if s.Reussi? {
        scores, gagnant := Departager(m, t);
      } else {
        scores := base;
        gagnant := null;
      }
    }

    /** The first scoring of `terminerPartie`, without trophies. */
    method ScorerSansTrophees(ghost m: seq<seq<Carte>>, ghost t0: seq<seq<Carte>>) returns (ghost base: seq<int>)
      requires Coherente() && SansDoublon(joueurs)
      requires MainsDe(joueurs) == m && TropheesDe(joueurs) == t0 && FacesVisibles(m)
      modifies Ensemble(joueurs)`scoreCalcule, Visiteurs()`scorePartiel, Visiteurs()`valeursTraitees
      ensures MainsDe(joueurs) == m && TropheesDe(joueurs) == t0 && FacesVisibles(m)
      ensures ScoresDe(joueurs) == base && base == ScoresAttendus(m, t0, true)
    {
      CalculerScores(true);
      assert FacesVisibles(m);
      base := ScoresDe(joueurs);
    }

    /** The scores without trophies, then the attribution of the trophies
        over them. */
    method ScorerEtAttribuer(ghost m: seq<seq<Carte>>, ghost t0: seq<seq<Carte>>)
      returns (s: Statut, ghost base: seq<int>, ghost a: Attribution, ghost t: seq<seq<Carte>>)
      requires Coherente() && SansDoublon(joueurs) && JestsDistincts(joueurs)
      requires MainsDe(joueurs) == m && TropheesDe(joueurs) == t0 && FacesVisibles(m)
      modifies JestsDe(joueurs)`trophees, Ensemble(joueurs)`scoreCalcule
      modifies Visiteurs()`scorePartiel, Visiteurs()`valeursTraitees
      ensures MainsDe(joueurs) == m && TropheesDe(joueurs) == t && ScoresDe(joueurs) == base && FacesVisibles(m)
      ensures base == ScoresAttendus(m, t0, true)
      ensures a == Attribuer(Evaluations(ConditionsDe(tropheesEnJeu), m, base))
      ensures t == TropheesApres(t0, tropheesEnJeu, a.gagnants)
      ensures s == if a.echec.Some? then Echoue(a.echec.valeur) else Reussi
    {
      base := ScorerSansTrophees(m, t0);
      s, a := AttribuerSurJestsReveles(m);
      t := TropheesDe(joueurs);
    }

    /** The attribution of the trophies, over revealed Jests `m`: no card
        is turned over. */
    method AttribuerSurJestsReveles(ghost m: seq<seq<Carte>>) returns (s: Statut, ghost a: Attribution)
      requires Coherente() && JestsDistincts(joueurs) && MainsDe(joueurs) == m && FacesVisibles(m)
      modifies JestsDe(joueurs)`trophees
      ensures MainsDe(joueurs) == m && ScoresDe(joueurs) == old(ScoresDe(joueurs)) && FacesVisibles(m)
      ensures a == Attribuer(Evaluations(ConditionsDe(tropheesEnJeu), m, old(ScoresDe(joueurs))))
      ensures TropheesDe(joueurs) == TropheesApres(old(TropheesDe(joueurs)), tropheesEnJeu, a.gagnants)
      ensures s == if a.echec.Some? then Echoue(a.echec.valeur) else Reussi
    {
      s, a := AttribuerTrophees();
    }

    /** The final scores, with the trophies `t`, and the winner they
        designate. */
    method Departager(ghost m: seq<seq<Carte>>, ghost t: seq<seq<Carte>>) returns (ghost scores: seq<int>, gagnant: Joueur?)
      requires Coherente() && SansDoublon(joueurs)
      requires MainsDe(joueurs) == m && TropheesDe(joueurs) == t && FacesVisibles(m)
      modifies Ensemble(joueurs)`scoreCalcule, Visiteurs()`scorePartiel, Visiteurs()`valeursTraitees
      ensures MainsDe(joueurs) == m && TropheesDe(joueurs) == t && FacesVisibles(m)
      ensures ScoresDe(joueurs) == scores && scores == ScoresAttendus(m, t, false)
      ensures gagnant == Designe(joueurs, Gestionnaire.GagnantPartie(m, scores).gagnant)
    {
      CalculerScores(false);
      scores := ScoresDe(joueurs);
      assert FacesVisibles(m);
      gagnant := Gestionnaire.DeterminerGagnant(joueurs);
    }

    /** The hand-out of the residue at the end of the game: player i
        receives residual card i, for i below both counts. */
    /** Player i receives card c into their Jest; no other Jest changes and
        no trophy moves. */
    method AjouterResidu(i: nat, c: Carte, ghost m1: seq<seq<Carte>>, ghost t1: seq<seq<Carte>>)
      requires JestsDistincts(joueurs) && i < |joueurs|
      requires m1 == MainsDe(joueurs) && t1 == TropheesDe(joueurs)
      modifies JestsDe(joueurs)`cartes
      ensures MainsDe(joueurs) == m1[i := m1[i] + [c]] && TropheesDe(joueurs) == t1
    {
      joueurs[i].AjouterCarteAuJest(c);
      forall k | 0 <= k < |joueurs|
        ensures MainsDe(joueurs)[k] == m1[i := m1[i] + [c]][k] && TropheesDe(joueurs)[k] == t1[k]
      {
        if k != i {
          assert joueurs[k].jest != joueurs[i].jest;
        }
      }
    }

    method RecupererResidus()
      requires JestsDistincts(joueurs)
      modifies JestsDe(joueurs)`cartes
      ensures MainsDe(joueurs) == Recuperees(old(MainsDe(joueurs)), Residus())
      ensures TropheesDe(joueurs) == old(TropheesDe(joueurs))
    {
      ghost var m0, t0 := MainsDe(joueurs), TropheesDe(joueurs);
      if cartesResiduelles.Some? && cartesResiduelles.valeur != [] {
        var res := cartesResiduelles.valeur;
        var i := 0;
        while i < |joueurs| && i < |res|
          invariant 0 <= i <= |joueurs| && i <= |res|
          invariant MainsDe(joueurs) == Recuperees(m0, res[..i])
          invariant TropheesDe(joueurs) == t0
        {
          ghost var m1 := MainsDe(joueurs);
          AjouterResidu(i, res[i], m1, t0);
          RecupereeSuivante(m0, res, i);
          i := i + 1;
        }
        RecupereesTronquees(m0, res, i);
      } else {
        assert Recuperees(m0, Residus()) == m0;
      }
    }

    /** The reveal loop: every card of every Jest is face up. */
    method RevelerJests()
      requires ToutesDans(MainsDe(joueurs), cartesEnJeu)
      modifies cartesEnJeu`estVisible
      ensures MainsDe(joueurs) == old(MainsDe(joueurs)) && TropheesDe(joueurs) == old(TropheesDe(joueurs))
      ensures FacesVisibles(MainsDe(joueurs))
    {
      for i := 0 to |joueurs|
        invariant forall k, c | 0 <= k < i && c in joueurs[k].jest.cartes :: c.estVisible
      {
        assert Dans(MainsDe(joueurs)[i], cartesEnJeu);
        joueurs[i].jest.RevelerCartes();
      }
    }

    /** The score loops of `terminerPartie` (without trophies) and of
        `calculerScoresFinal` (with them): each player's stored score becomes
        the calculator's score of their Jest. */
    method CalculerScores(sansTrophees: bool)
      requires Coherente() && SansDoublon(joueurs)
      modifies Ensemble(joueurs)`scoreCalcule, Visiteurs()`scorePartiel, Visiteurs()`valeursTraitees
      ensures MainsDe(joueurs) == old(MainsDe(joueurs)) && TropheesDe(joueurs) == old(TropheesDe(joueurs))
      ensures ScoresDe(joueurs) == ScoresAttendus(old(MainsDe(joueurs)), old(TropheesDe(joueurs)), sansTrophees)
    {
      for i := 0 to |joueurs|
        invariant forall k | 0 <= k < i ::
                    joueurs[k].scoreCalcule == ScoreJest(joueurs[k].jest.cartes, joueurs[k].jest.trophees, sansTrophees)
      {
        ScorerJoueur(i, sansTrophees);
      }
      ScoresCalcules(joueurs, sansTrophees);
      MainsInchangees(joueurs);
    }

    /** One pass of the `calculerScoresFinal` loop: player `i`'s score is
        set from their Jest; no Jest changes. */
    method ScorerJoueur(i: nat, sansTrophees: bool)
      requires Coherente() && i < |joueurs|
      modifies (joueurs[i] as Joueur)`scoreCalcule, Visiteurs()`scorePartiel, Visiteurs()`valeursTraitees
      ensures Coherente()
      ensures joueurs[i].scoreCalcule == ScoreJest(joueurs[i].jest.cartes, joueurs[i].jest.trophees, sansTrophees)
    {
      var score := calculateur.CalculerScore(joueurs[i].jest, sansTrophees);
      joueurs[i].SetScore(score);
    }

    /** `attribuerTrophees`: each trophy, in list order, is evaluated over
        the players, whose cards and scores the loop does not change; the
        winner, if any, adds it to their Jest's trophies.  A condition that
        throws ends the loop with its exception. */
    method AttribuerTrophees() returns (s: Statut, ghost a: Attribution)
      requires Coherente() && JestsDistincts(joueurs)
      modifies JestsDe(joueurs)`trophees
      ensures MainsDe(joueurs) == old(MainsDe(joueurs)) && ScoresDe(joueurs) == old(ScoresDe(joueurs))
      ensures a == Attribuer(Evaluations(ConditionsDe(tropheesEnJeu), old(MainsDe(joueurs)), old(ScoresDe(joueurs))))
      ensures TropheesDe(joueurs) == TropheesApres(old(TropheesDe(joueurs)), tropheesEnJeu, a.gagnants)
      ensures s == if a.echec.Some? then Echoue(a.echec.valeur) else Reussi
    {
      ghost var mains, scores, t0 := MainsDe(joueurs), ScoresDe(joueurs), TropheesDe(joueurs);
      ghost var conds := ConditionsDe(tropheesEnJeu);
      ghost var rs := Evaluations(conds, mains, scores);
      assert rs[..0] == [];
      a := Attribuer(rs[..0]);
      TropheesApresVide(t0, tropheesEnJeu);
      for i := 0 to |tropheesEnJeu|
        invariant MainsDe(joueurs) == mains && ScoresDe(joueurs) == scores
        invariant a == Attribuer(rs[..i]) && a.echec.None?
        invariant TropheesDe(joueurs) == TropheesApres(t0, tropheesEnJeu, a.gagnants)
      {
        var r;
        r, a := AttribuerUnTrophee(i, mains, scores, rs, t0, a);
        if r.Echec? {
          AttributionArretee(rs, i + 1);
          return Echoue(r.erreur), a;
        }
      }
      assert rs[..|rs|] == rs;
      s := Reussi;
    }

    /** One turn of the trophy loop, for trophy `i`: its condition is
        evaluated over the players; an exception stops the attribution and
        changes no Jest; otherwise the winner, if any, adds the trophy to
        their Jest's trophies. */
    method AttribuerUnTrophee(i: nat, ghost mains: seq<seq<Carte>>, ghost scores: seq<int>,
                              ghost rs: seq<Resultat<Option<nat>>>, ghost t0: seq<seq<Carte>>, ghost a: Attribution)
      returns (r: Resultat<Joueur?>, ghost a': Attribution)
      requires Coherente() && JestsDistincts(joueurs) && i < |tropheesEnJeu| && |t0| == |joueurs|
      requires MainsDe(joueurs) == mains && ScoresDe(joueurs) == scores
      requires rs == Evaluations(ConditionsDe(tropheesEnJeu), mains, scores) && |rs| == |tropheesEnJeu|
      requires a == Attribuer(rs[..i]) && a.echec.None?
      requires TropheesDe(joueurs) == TropheesApres(t0, tropheesEnJeu, a.gagnants)
      modifies JestsDe(joueurs)`trophees
      ensures MainsDe(joueurs) == mains && ScoresDe(joueurs) == scores
      ensures a' == Attribuer(rs[..i + 1])
      ensures r.Echec? <==> a'.echec.Some?
      ensures r.Echec? ==> r.erreur == a'.echec.valeur
      ensures TropheesDe(joueurs) == TropheesApres(t0, tropheesEnJeu, a'.gagnants)
    {
      assert rs[..i + 1][..i] == rs[..i];
      a' := Attribuer(rs[..i + 1]);
      r := EvaluerTrophee(i, mains, scores, rs);
      if r.Ok? {
        assert a' == Attribution(a.gagnants + [rs[i].valeur], None);
        DonnerTropheeA(i, r.valeur, rs[i].valeur, t0, a.gagnants);
      } else {
        assert a' == Attribution(a.gagnants, Some(rs[i].erreur));
      }
    }

    /** The evaluation of trophy `i`'s condition: the player it designates,
        read off the `i`-th evaluation over the hands and scores. */
    method EvaluerTrophee(i: nat, ghost mains: seq<seq<Carte>>, ghost scores: seq<int>,
                          ghost rs: seq<Resultat<Option<nat>>>)
      returns (r: Resultat<Joueur?>)
      requires Coherente() && i < |tropheesEnJeu|
      requires MainsDe(joueurs) == mains && ScoresDe(joueurs) == scores
      requires rs == Evaluations(ConditionsDe(tropheesEnJeu), mains, scores) && |rs| == |tropheesEnJeu|
      ensures rs[i].Ok? && rs[i].valeur.Some? ==> rs[i].valeur.valeur < |joueurs|
      ensures r == Conditions.Joueur(joueurs, rs[i])
    {
      EvaluationDeTrophee(tropheesEnJeu, mains, scores, i);
      ghost var e := Evalue(tropheesEnJeu[i].genre.condition, mains, scores);
      assert rs[i] == e;
      r := EvaluerCondition(tropheesEnJeu[i], joueurs);
      assert MainsDe(joueurs) == mains;
      assert ScoresDe(joueurs) == scores;
      assert r == Conditions.Joueur(joueurs, e);
    }

    /** Trophy `i` going to `gagnant`, the `g`-th player if any, after the
        awards `gagnants`: the trophies become those of the awards
        `gagnants + [g]`, and no hand changes. */
    method DonnerTropheeA(i: nat, gagnant: Joueur?, ghost g: Option<nat>, ghost t0: seq<seq<Carte>>,
                          ghost gagnants: seq<Option<nat>>)
      requires Coherente() && JestsDistincts(joueurs) && i == |gagnants| < |tropheesEnJeu|
      requires (g.Some? ==> g.valeur < |joueurs|) && gagnant == Designe(joueurs, g)
      requires |t0| == |joueurs| && TropheesDe(joueurs) == TropheesApres(t0, tropheesEnJeu, gagnants)
      modifies JestsDe(joueurs)`trophees
      ensures MainsDe(joueurs) == old(MainsDe(joueurs))
      ensures TropheesDe(joueurs) == TropheesApres(t0, tropheesEnJeu, gagnants + [g])
    {
      ghost var t1 := TropheesDe(joueurs);
      DonnerTrophee(tropheesEnJeu[i], gagnant, g);
      TropheesApresEtape(t0, tropheesEnJeu, gagnants, g, t1, TropheesDe(joueurs));
      MainsInchangees(joueurs);
    }

    /** The award of one trophy: the winner `gagnant`, at position `g` when
        there is one, adds the trophy to their Jest's trophies, and no other
        Jest changes. */
    method DonnerTrophee(trophee: Carte, gagnant: Joueur?, ghost g: Option<nat>)
      requires trophee.genre.Trophee? && JestsDistincts(joueurs)
      requires (g.Some? ==> g.valeur < |joueurs|) && gagnant == Designe(joueurs, g)
      modifies JestsDe(joueurs)`trophees
      ensures forall k | 0 <= k < |joueurs| ::
                joueurs[k].jest.trophees == old(joueurs[k].jest.trophees) + (if g == Some(k) then [trophee] else [])
    {
      if gagnant != null {
        gagnant.jest.AjouterTrophee(trophee);
        forall k | 0 <= k < |joueurs| && g != Some(k)
          ensures joueurs[k].jest.trophees == old(joueurs[k].jest.trophees)
        {
          assert joueurs[k].jest != gagnant.jest;
        }
      }
    }
  }
}
