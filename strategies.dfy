/** The deterministic choice rules of the virtual players
    (StrategieGloutonne.java, StrategieDefensive.java).  A strategy has no
    state: each rule is a function or a method over the hand or the offers
    it is given, and every rule is proved to return one of the options it
    was offered.  An empty list, on which Java's `get(0)` throws
    IndexOutOfBoundsException, gives `Echec(IndiceHorsBornes)`.
 */
module Strategies {
  import opened Resultats
  import opened Couleurs
  import opened Cartes
  import opened Offres

  // ---------------------------------------------------------------------
  // First extremum and first match, over values

  /** The position of the first smallest value of `vs`. */
  function PremierMin(vs: seq<int>): (k: nat)
    requires |vs| > 0
    ensures k < |vs|
    ensures forall j | 0 <= j < |vs| :: vs[k] <= vs[j]
    ensures forall j | 0 <= j < k :: vs[j] > vs[k]
  {
    if |vs| == 1 then 0
    else
      var k := PremierMin(vs[..|vs| - 1]);
      assert forall j | 0 <= j < |vs| - 1 :: vs[..|vs| - 1][j] == vs[j];
      if vs[|vs| - 1] < vs[k] then |vs| - 1 else k
  }

  /** The position of the first largest value of `vs`. */
  function PremierMax(vs: seq<int>): (k: nat)
    requires |vs| > 0
    ensures k < |vs|
    ensures forall j | 0 <= j < |vs| :: vs[j] <= vs[k]
    ensures forall j | 0 <= j < k :: vs[j] < vs[k]
  {
    if |vs| == 1 then 0
    else
      var k := PremierMax(vs[..|vs| - 1]);
      assert forall j | 0 <= j < |vs| - 1 :: vs[..|vs| - 1][j] == vs[j];
      if vs[|vs| - 1] > vs[k] then |vs| - 1 else k
  }

  /** The position of the first `true` of `bs`, if any. */
  function Premier(bs: seq<bool>): (r: Option<nat>)
    ensures r.None? <==> forall j | 0 <= j < |bs| :: !bs[j]
    ensures r.Some? ==> r.valeur < |bs| && bs[r.valeur] && forall j | 0 <= j < r.valeur :: !bs[j]
  {
    if bs == [] then None
    else if bs[0] then Some(0)
    else
      var r := Premier(bs[1..]);
      assert forall j | 1 <= j < |bs| :: bs[1..][j - 1] == bs[j];
      if r.None? then None else Some(r.valeur + 1)
  }

  // ---------------------------------------------------------------------
  // Views of a hand and of a list of offers

  /** The face values of the cards of a hand. */
  function Faces(main: seq<Carte>): (vs: seq<int>)
    ensures |vs| == |main| && forall i | 0 <= i < |main| :: vs[i] == main[i].GetValeurFaciale()
  {
    seq(|main|, i requires 0 <= i < |main| => main[i].GetValeurFaciale())
  }

  /** Which cards of a hand are diamonds. */
  function Carreaux(main: seq<Carte>): (bs: seq<bool>)
    ensures |bs| == |main| && forall i | 0 <= i < |main| :: bs[i] == (main[i].GetCouleur() == CARREAU)
  {
    seq(|main|, i requires 0 <= i < |main| => main[i].GetCouleur() == CARREAU)
  }

  /** Every offer of the list shows a visible card. */
  predicate Visibles(offres: seq<Offre>)
    reads set i | 0 <= i < |offres| :: offres[i]
  {
    forall i | 0 <= i < |offres| :: offres[i].carteVisible != null
  }

  /** The face values of the visible cards of the offers. */
  function FacesVisibles(offres: seq<Offre>): (vs: seq<int>)
    requires Visibles(offres)
    reads set i | 0 <= i < |offres| :: offres[i]
    ensures |vs| == |offres|
    ensures forall i | 0 <= i < |offres| :: vs[i] == offres[i].carteVisible.GetValeurFaciale()
  {
    seq(|offres|, i requires 0 <= i < |offres| && Visibles(offres)
                    reads set i | 0 <= i < |offres| :: offres[i] =>
          offres[i].carteVisible.GetValeurFaciale())
  }

  /** Which offers show a visible card that is not a diamond. */
  function HorsCarreaux(offres: seq<Offre>): (bs: seq<bool>)
    requires Visibles(offres)
    reads set i | 0 <= i < |offres| :: offres[i]
    ensures |bs| == |offres|
    ensures forall i | 0 <= i < |offres| :: bs[i] == (offres[i].carteVisible.GetCouleur() != CARREAU)
  {
    seq(|offres|, i requires 0 <= i < |offres| && Visibles(offres)
                    reads set i | 0 <= i < |offres| :: offres[i] =>
          offres[i].carteVisible.GetCouleur() != CARREAU)
  }

  // ---------------------------------------------------------------------
  // StrategieGloutonne

  /** `choisirCarteOffre`: the stream minimum by face value keeps the first
      card among equals.  The fallback `main.get(0)` is evaluated before
      `orElse` runs, so an empty hand throws. */
  function CacheGloutonne(main: seq<Carte>): (r: Resultat<Carte>)
    ensures r.Echec? <==> main == []
    ensures r.Echec? ==> r.erreur == IndiceHorsBornes
    ensures r.Ok? ==> r.valeur in main
  {
    if main == [] then Echec(IndiceHorsBornes) else Ok(main[PremierMin(Faces(main))])
  }

  /** The card the greedy player hides has the smallest face value of the
      hand, and every card before it in the hand has a larger one. */
  lemma CacheGloutonneMinimale(main: seq<Carte>)
    requires main != []
    ensures var c := CacheGloutonne(main).valeur;
            exists k | 0 <= k < |main| :: main[k] == c
              && (forall j | 0 <= j < |main| :: c.GetValeurFaciale() <= main[j].GetValeurFaciale())
              && (forall j | 0 <= j < k :: main[j].GetValeurFaciale() > c.GetValeurFaciale())
  {
    var k := PremierMin(Faces(main));
    assert main[k] == CacheGloutonne(main).valeur;
  }

  /** `choisirOffreCible`: the running maximum of the visible face values,
      replaced only by a strictly larger one, so the first offer among equals. */
  method CibleGloutonne(offres: seq<Offre>) returns (r: Resultat<Offre>)
    requires Visibles(offres)
    ensures r.Echec? <==> offres == []
    ensures r.Echec? ==> r.erreur == IndiceHorsBornes
    ensures r.Ok? ==> r.valeur == offres[PremierMax(FacesVisibles(offres))]
  {
    if offres == [] {
      return Echec(IndiceHorsBornes);
    }
    ghost var vs := FacesVisibles(offres);
    var offreMax := offres[0];
    ghost var k := 0;
    for i := 0 to |offres|
      invariant 0 <= k < |offres| && offreMax == offres[k]
      invariant forall j | 0 <= j < i :: vs[j] <= vs[k]
      invariant forall j | 0 <= j < k :: vs[j] < vs[k]
    {
      if offres[i].carteVisible.GetValeurFaciale() > offreMax.carteVisible.GetValeurFaciale() {
        offreMax := offres[i];
        k := i;
      }
    }
    PremierMaxUnique(vs, k);
    r := Ok(offreMax);
  }

  /** The first largest value is the only position that is largest with
      every earlier value strictly smaller. */
  lemma PremierMaxUnique(vs: seq<int>, k: nat)
    requires k < |vs|
    requires forall j | 0 <= j < |vs| :: vs[j] <= vs[k]
    requires forall j | 0 <= j < k :: vs[j] < vs[k]
    ensures PremierMax(vs) == k
  {
  }

  /** The first smallest value is the only position that is smallest with
      every earlier value strictly larger. */
  lemma PremierMinUnique(vs: seq<int>, k: nat)
    requires k < |vs|
    requires forall j | 0 <= j < |vs| :: vs[k] <= vs[j]
    requires forall j | 0 <= j < k :: vs[j] > vs[k]
    ensures PremierMin(vs) == k
  {
  }

  /** `choisirCarteDansOffre`: the greedy player always takes the visible card. */
  function PriseGloutonne(offre: Offre): (c: Carte?)
    reads offre`carteVisible
    ensures c == offre.carteVisible
  {
    offre.carteVisible
  }

  // ---------------------------------------------------------------------
  // StrategieDefensive

  /** `choisirCarteOffre`: the first diamond of the hand if there is one;
      otherwise the running minimum of the face values, replaced only by a
      strictly smaller one, so the first card among equals. */
  method CacheDefensive(main: seq<Carte>) returns (r: Resultat<Carte>)
    ensures r.Echec? <==> main == []
    ensures r.Echec? ==> r.erreur == IndiceHorsBornes
    ensures r.Ok? && Premier(Carreaux(main)).Some? ==> r.valeur == main[Premier(Carreaux(main)).valeur]
    ensures r.Ok? && Premier(Carreaux(main)).None? ==> r.valeur == main[PremierMin(Faces(main))]
  {
    ghost var bs := Carreaux(main);
    for i := 0 to |main|
      invariant forall j | 0 <= j < i :: !bs[j]
    {
      if main[i].GetCouleur() == CARREAU {
        PremierUnique(bs, i);
        return Ok(main[i]);
      }
    }
    if main == [] {
      return Echec(IndiceHorsBornes);
    }
    ghost var vs := Faces(main);
    var carteMin := main[0];
    ghost var k := 0;
    for i := 0 to |main|
      invariant 0 <= k < |main| && carteMin == main[k]
      invariant forall j | 0 <= j < i :: vs[k] <= vs[j]
      invariant forall j | 0 <= j < k :: vs[j] > vs[k]
    {
      if main[i].GetValeurFaciale() < carteMin.GetValeurFaciale() {
        carteMin := main[i];
        k := i;
      }
    }
    PremierMinUnique(vs, k);
    r := Ok(carteMin);
  }

  /** The first `true` is the only position holding `true` with no `true` before it. */
  lemma PremierUnique(bs: seq<bool>, k: nat)
    requires k < |bs| && bs[k] && forall j | 0 <= j < k :: !bs[j]
    ensures Premier(bs) == Some(k)
  {
  }

  /** `choisirOffreCible`: the first offer whose visible card is not a
      diamond; when every visible card is one, the running minimum of the
      visible face values, so the first offer among equals. */
  method CibleDefensive(offres: seq<Offre>) returns (r: Resultat<Offre>)
    requires Visibles(offres)
    ensures r.Echec? <==> offres == []
    ensures r.Echec? ==> r.erreur == IndiceHorsBornes
    ensures r.Ok? && Premier(HorsCarreaux(offres)).Some? ==> r.valeur == offres[Premier(HorsCarreaux(offres)).valeur]
    ensures r.Ok? && Premier(HorsCarreaux(offres)).None? ==> r.valeur == offres[PremierMin(FacesVisibles(offres))]
  {
    ghost var bs := HorsCarreaux(offres);
    for i := 0 to |offres|
      invariant forall j | 0 <= j < i :: !bs[j]
    {
      if offres[i].carteVisible.GetCouleur() != CARREAU {
        PremierUnique(bs, i);
        return Ok(offres[i]);
      }
    }
    if offres == [] {
      return Echec(IndiceHorsBornes);
    }
    ghost var vs := FacesVisibles(offres);
    var offreMin := offres[0];
    ghost var k := 0;
    for i := 0 to |offres|
      invariant 0 <= k < |offres| && offreMin == offres[k]
      invariant forall j | 0 <= j < i :: vs[k] <= vs[j]
      invariant forall j | 0 <= j < k :: vs[j] > vs[k]
    {
      if offres[i].carteVisible.GetValeurFaciale() < offreMin.carteVisible.GetValeurFaciale() {
        offreMin := offres[i];
        k := i;
      }
    }
    PremierMinUnique(vs, k);
    r := Ok(offreMin);
  }

  /** `choisirCarteDansOffre`: the hidden card when the visible one is a
      diamond, the visible card otherwise. */
  function PriseDefensive(offre: Offre): (c: Carte?)
    requires offre.carteVisible != null
    reads offre`carteVisible, offre`carteCachee
    ensures c == offre.carteCachee <== offre.carteVisible.GetCouleur() == CARREAU
    ensures c == offre.carteVisible <== offre.carteVisible.GetCouleur() != CARREAU
  {
    if offre.carteVisible.GetCouleur() == CARREAU then offre.carteCachee else offre.carteVisible
  }

  /** From a complete offer, both strategies take a card the offer holds, as
      `retirerCarte` requires. */
  lemma PrisesDansOffre(offre: Offre)
    requires offre.EstComplete()
    ensures offre.Etat().Tient(PriseGloutonne(offre))
    ensures offre.Etat().Tient(PriseDefensive(offre))
  {
  }
}
