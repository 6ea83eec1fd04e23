/** End-of-game decisions (GestionnaireScores.java; `Partie.determinerGagnant`
    runs the same loop): the winner by stored score with the highest-card
    tie-break, and the ranking by non-increasing score.
 */
module Gestionnaire {
  import opened Resultats
  import opened Cartes
  import opened Jests
  import opened Joueurs
  import opened Conditions

  /** The scan of `determinerGagnant` over the players' stored scores and
      highest cards.  The running maximum starts at `Integer.MIN_VALUE`; a
      larger score takes the lead; an equal score takes it only when there
      is a current winner and the newcomer has a highest card and the
      winner has none or a strictly weaker one. */
  function Vainqueur(scores: seq<int>, hautes: seq<Carte?>): (r: Course)
    requires |hautes| == |scores|
    ensures r.gagnant.Some? ==> r.gagnant.valeur < |scores|
  {
    if scores == [] then Course(None, ScoreMinimal)
    else
      var j := |scores| - 1;
      var e := Vainqueur(scores[..j], hautes[..j]);
      EtapeVainqueur(e, j, scores, hautes)
  }

  /** One player of the winner scan. */
  function EtapeVainqueur(e: Course, j: nat, scores: seq<int>, hautes: seq<Carte?>): (r: Course)
    requires |hautes| == |scores| && j < |scores|
    requires e.gagnant.Some? ==> e.gagnant.valeur < j
    ensures r.gagnant.Some? ==> r.gagnant.valeur <= j
  {
    if scores[j] > e.max then Course(Some(j), scores[j])
    else if scores[j] == e.max && e.gagnant.Some? then
      var c1 := hautes[e.gagnant.valeur];
      var c2 := hautes[j];
      if c2 != null && (c1 == null || c2.ComparerForce(c1) > 0) then Course(Some(j), scores[j]) else e
    else e
  }

  /** The winner scan over a prefix one player longer. */
  lemma VainqueurEtape(scores: seq<int>, hautes: seq<Carte?>, i: nat)
    requires |hautes| == |scores| && i < |scores|
    ensures var e := Vainqueur(scores[..i], hautes[..i]);
            (e.gagnant.Some? ==> e.gagnant.valeur < i)
            && Vainqueur(scores[..i + 1], hautes[..i + 1]) == EtapeVainqueur(e, i, scores, hautes)
  {
    var s, h := scores[..i + 1], hautes[..i + 1];
    assert s[..i] == scores[..i] && h[..i] == hautes[..i];
    var e := Vainqueur(scores[..i], hautes[..i]);
    assert EtapeVainqueur(e, i, s, h) == EtapeVainqueur(e, i, scores, hautes);
  }

  /** The winner has a score no player exceeds; there is none iff no score
      exceeds `Integer.MIN_VALUE` (in particular for an empty list). */
  lemma {:induction false} VainqueurMaximal(scores: seq<int>, hautes: seq<Carte?>)
    requires |hautes| == |scores|
    ensures var r := Vainqueur(scores, hautes);
            (r.gagnant.None? <==> forall j | 0 <= j < |scores| :: scores[j] <= ScoreMinimal)
            && (r.gagnant.None? ==> r.max == ScoreMinimal)
            && (r.gagnant.Some? ==> scores[r.gagnant.valeur] == r.max && r.max > ScoreMinimal)
            && (forall j | 0 <= j < |scores| :: scores[j] <= r.max)
  {
    if scores != [] {
      var j := |scores| - 1;
      VainqueurMaximal(scores[..j], hautes[..j]);
      assert forall i | 0 <= i < j :: scores[..j][i] == scores[i];
    }
  }

  /** The winner tie-break: a player before the winner with the same score
      has no highest card or a strictly weaker one than the winner's, which
      exists; a player after it with the same score has no highest card, or
      one no stronger than the winner's. */
  lemma {:induction false} VainqueurDepartage(scores: seq<int>, hautes: seq<Carte?>)
    requires |hautes| == |scores|
    ensures var r := Vainqueur(scores, hautes);
            r.gagnant.Some? ==>
              var g := r.gagnant.valeur;
              (forall j | 0 <= j < g && scores[j] == r.max ::
                 hautes[g] != null && (hautes[j] == null || Rang(hautes[j]) < Rang(hautes[g])))
              && (forall j | g < j < |scores| && scores[j] == r.max ::
                    hautes[j] == null || (hautes[g] != null && Rang(hautes[j]) <= Rang(hautes[g])))
  {
    if scores != [] {
      var j := |scores| - 1;
      VainqueurDepartage(scores[..j], hautes[..j]);
      VainqueurMaximal(scores[..j], hautes[..j]);
      assert forall i | 0 <= i < j :: scores[..j][i] == scores[i] && hautes[..j][i] == hautes[i];
    }
  }

  /** `determinerGagnant(joueurs)` over the players' cards and stored scores. */
  function GagnantPartie(mains: seq<seq<Carte>>, scores: seq<int>): (r: Course)
    requires |scores| == |mains|
    ensures r.gagnant.Some? ==> r.gagnant.valeur < |mains|
  {
    Vainqueur(scores, Hautes(mains, Toutes))
  }

  /** In the game's terms: with every score above `Integer.MIN_VALUE`, a
      non-empty list has a winner whose score is maximal; among the players
      with that score, the ones before it hold a strictly weaker highest card
      or an empty Jest, and the winner's Jest is not empty if any of them
      exists. */
  lemma GagnantPartieMaximal(mains: seq<seq<Carte>>, scores: seq<int>)
    requires |scores| == |mains|
    requires forall j | 0 <= j < |scores| :: scores[j] > ScoreMinimal
    ensures var r := GagnantPartie(mains, scores);
            (r.gagnant.None? <==> mains == [])
            && (r.gagnant.Some? ==>
                  var g := r.gagnant.valeur;
                  (forall j | 0 <= j < |scores| :: scores[j] <= scores[g])
                  && forall j | 0 <= j < g && scores[j] == scores[g] ::
                       mains[g] != []
                       && (mains[j] == [] || Rang(PlusHaute(mains[j], Toutes)) < Rang(PlusHaute(mains[g], Toutes))))
  {
    var hautes := Hautes(mains, Toutes);
    forall j | 0 <= j < |mains| ensures (mains[j] == []) == (hautes[j] == null) {
      Conditions.PlusHauteGlobale(mains[j]);
    }
    VainqueurMaximal(scores, hautes);
    VainqueurDepartage(scores, hautes);
  }

  /** `determinerGagnant(joueurs)`. */
  method DeterminerGagnant(js: seq<Joueur>) returns (gagnant: Joueur?)
    ensures gagnant == Designe(js, GagnantPartie(MainsDe(js), ScoresDe(js)).gagnant)
  {
    ghost var mains, scores := MainsDe(js), ScoresDe(js);
    ghost var hautes := Hautes(mains, Toutes);
    ghost var e := Vainqueur(scores[..0], hautes[..0]);
    gagnant := null;
    var scoreMax := ScoreMinimal;
    for i := 0 to |js|
      invariant MainsDe(js) == mains && ScoresDe(js) == scores
      invariant e == Vainqueur(scores[..i], hautes[..i])
      invariant scoreMax == e.max && gagnant == Designe(js, e.gagnant)
    {
      VainqueurEtape(scores, hautes, i);
      gagnant, scoreMax := ExaminerScore(js, i, gagnant, scoreMax, e, mains, scores, hautes);
      e := EtapeVainqueur(e, i, scores, hautes);
    }
    assert scores[..|js|] == scores && hautes[..|js|] == hautes;
  }

  /** The body of the loop of `determinerGagnant` for the player at position
      `i`: one step of the winner scan. */
  method ExaminerScore(js: seq<Joueur>, i: nat, gagnant: Joueur?, scoreMax: int,
                       ghost e: Course, ghost mains: seq<seq<Carte>>, ghost scores: seq<int>, ghost hautes: seq<Carte?>)
    returns (gagnant': Joueur?, scoreMax': int)
    requires i < |js| && mains == MainsDe(js) && scores == ScoresDe(js) && hautes == Hautes(mains, Toutes)
    requires e.gagnant.Some? ==> e.gagnant.valeur < i
    requires scoreMax == e.max && gagnant == Designe(js, e.gagnant)
    ensures var suivant := EtapeVainqueur(e, i, scores, hautes);
            scoreMax' == suivant.max && gagnant' == Designe(js, suivant.gagnant)
  {
    gagnant', scoreMax' := gagnant, scoreMax;
    var joueur := js[i];
    if joueur.GetScore() > scoreMax {
      scoreMax' := joueur.GetScore();
      gagnant' := joueur;
    } else if joueur.GetScore() == scoreMax {
      if gagnant != null {
        var c1 := gagnant.jest.GetCartePlusHauteGlobale();
        var c2 := joueur.jest.GetCartePlusHauteGlobale();
        if c2 != null && (c1 == null || c2.ComparerForce(c1) > 0) {
          gagnant' := joueur;
        }
      }
    }
  }

  // ---------------------------------------------------------------------
  // Ranking

  /** The values never increase along the sequence. */
  ghost predicate Decroissant(ns: seq<int>) {
    forall a, b | 0 <= a < b < |ns| :: ns[a] >= ns[b]
  }

  /** Inserting a value after every value at least as large and before the
      rest keeps a non-increasing sequence non-increasing. */
  lemma InsertionDecroissante(ns: seq<int>, x: int, k: nat)
    requires Decroissant(ns) && k <= |ns|
    requires forall a | 0 <= a < k :: ns[a] >= x
    requires k < |ns| ==> ns[k] < x
    ensures Decroissant(ns[..k] + [x] + ns[k..])
  {
    var r := ns[..k] + [x] + ns[k..];
    forall a, b | 0 <= a < b < |r| ensures r[a] >= r[b] {
      if a < k {
        assert r[a] == ns[a];
        if b > k { assert r[b] == ns[b - 1]; }
      } else if a == k {
        assert r[b] == ns[b - 1];
      } else {
        assert r[a] == ns[a - 1] && r[b] == ns[b - 1];
      }
    }
  }

  /** `obtenirClassement(joueurs)`: a new list holding the same players by
      non-increasing stored score. */
  method ObtenirClassement(js: seq<Joueur>) returns (classement: seq<Joueur>)
    ensures multiset(classement) == multiset(js)
    ensures Decroissant(ScoresDe(classement))
  {
    classement := [];
    for i := 0 to |js|
      invariant multiset(classement) == multiset(js[..i])
      invariant Decroissant(ScoresDe(classement))
    {
      assert js[..i + 1] == js[..i] + [js[i]];
      classement := Inserer(classement, js[i]);
    }
    assert js[..|js|] == js;
  }

  /** Places `j` after every player whose score is at least its own. */
  method Inserer(classement: seq<Joueur>, j: Joueur) returns (r: seq<Joueur>)
    requires Decroissant(ScoresDe(classement))
    ensures multiset(r) == multiset(classement) + multiset{j}
    ensures Decroissant(ScoresDe(r))
  {
    ghost var ns := ScoresDe(classement);
    var k := 0;
    while k < |classement| && classement[k].scoreCalcule >= j.scoreCalcule
      invariant 0 <= k <= |classement|
      invariant forall a | 0 <= a < k :: ns[a] >= j.scoreCalcule
    {
      k := k + 1;
    }
    r := classement[..k] + [j] + classement[k..];
    assert classement == classement[..k] + classement[k..];
    InsertionDecroissante(ns, j.scoreCalcule, k);
    ScoresInsertion(classement, j, k);
  }

  /** The scores of a list with a player inserted at position `k`. */
  lemma ScoresInsertion(js: seq<Joueur>, j: Joueur, k: nat)
    requires k <= |js|
    ensures ScoresDe(js[..k] + [j] + js[k..]) == ScoresDe(js)[..k] + [j.scoreCalcule] + ScoresDe(js)[k..]
  {
    var r, ns := js[..k] + [j] + js[k..], ScoresDe(js);
    var ms := ns[..k] + [j.scoreCalcule] + ns[k..];
    forall a | 0 <= a < |r| ensures ScoresDe(r)[a] == ms[a] {
      if a < k {
        assert r[a] == js[a];
      } else if a > k {
        assert r[a] == js[a - 1];
      }
    }
  }
}
