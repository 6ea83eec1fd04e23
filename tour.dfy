/** One round of the game (Tour.java): dealing two cards to each player,
    building the offers, and the taking phase in which each player takes one
    card from an offer and the raided owner, if they have not played yet,
    plays next.

    The offers live in a Java `HashMap` whose iteration order is not
    specified: every loop over it runs here in an arbitrary order of its keys,
    so that what is proved holds for every order.  The players' three choices
    are arbitrary choices among what they are offered.
 */
module Tours {
  import opened Resultats
  import opened Cartes
  import opened Jests
  import opened Joueurs
  import opened Pioches
  import opened Offres
  import opened Conditions

  // ---------------------------------------------------------------------
  // Finite sets and their enumerations

  /** The elements of a list, as a set. */
  function Ensemble<T>(s: seq<T>): set<T> {
    set i | 0 <= i < |s| :: s[i]
  }

  predicate SansDoublon<T(==)>(s: seq<T>) {
    forall i, j | 0 <= i < j < |s| :: s[i] != s[j]
  }

  /** `q` lists the elements of `s`, each once: one iteration order of a
      hash-based Java collection holding `s`. */
  predicate Enumere<T(==)>(q: seq<T>, s: set<T>) {
    Ensemble(q) == s && SansDoublon(q)
  }

  /** A subset of the elements of a list that holds each of them is all of them. */
  lemma TousDans<T>(a: set<T>, b: set<T>, js: seq<T>)
    requires a <= b && b == Ensemble(js) && forall k | 0 <= k < |js| :: js[k] in a
    ensures a == Ensemble(js)
  {
    forall x | x in b
      ensures x in a
    {
      var k :| 0 <= k < |js| && js[k] == x;
    }
  }

  /** Every finite set has an iteration order. */
  lemma {:induction false} EnumerationExiste<T>(s: set<T>)
    ensures exists q :: Enumere(q, s)
  {
    if s == {} {
      assert Enumere([], s);
    } else {
      var x :| x in s;
      EnumerationExiste(s - {x});
      var q :| Enumere(q, s - {x});
      var q' := q + [x];
      assert Ensemble(q') == Ensemble(q) + {x} by {
        assert forall i | 0 <= i < |q| :: q'[i] == q[i];
        assert q'[|q|] == x;
      }
      assert Enumere(q', s);
    }
  }

  /** A list without repetition has as many elements as its set. */
  lemma {:induction false} CardinalEnsemble<T>(s: seq<T>)
    requires SansDoublon(s)
    ensures |Ensemble(s)| == |s|
  {
    if s != [] {
      var k := |s| - 1;
      var init := s[..k];
      assert SansDoublon(init) by {
        assert forall i | 0 <= i < k :: init[i] == s[i];
      }
      CardinalEnsemble(init);
      assert Ensemble(s) == Ensemble(init) + {s[k]} by {
        assert forall i | 0 <= i < k :: init[i] == s[i];
      }
      assert s[k] !in Ensemble(init) by {
        forall i | 0 <= i < k
          ensures init[i] != s[k]
        {
          assert init[i] == s[i];
        }
      }
    }
  }

  /** How many elements of the list are in `s`. */
  function Nombre<T>(js: seq<T>, s: set<T>): (n: nat)
    ensures n <= |js|
  {
    if js == [] then 0
    else Nombre(js[..|js| - 1], s) + (if js[|js| - 1] in s then 1 else 0)
  }

  /** No element of a list is in the empty set. */
  lemma {:induction false} NombreVide<T>(js: seq<T>)
    ensures Nombre(js, {}) == 0
  {
    if js != [] {
      NombreVide(js[..|js| - 1]);
    }
  }

  /** Adding to `s` an element the list does not hold changes no count. */
  lemma {:induction false} NombreHors<T>(js: seq<T>, s: set<T>, x: T)
    requires x !in Ensemble(js)
    ensures Nombre(js, s + {x}) == Nombre(js, s)
  {
    if js != [] {
      var init := js[..|js| - 1];
      assert x !in Ensemble(init) by {
        assert forall i | 0 <= i < |init| :: init[i] == js[i];
      }
      NombreHors(init, s, x);
      assert js[|js| - 1] in Ensemble(js);
    }
  }

  /** Adding to `s` an element the list holds once counts it once more. */
  lemma {:induction false} NombreAjout<T>(js: seq<T>, s: set<T>, x: T)
    requires SansDoublon(js) && x in Ensemble(js) && x !in s
    ensures Nombre(js, s + {x}) == Nombre(js, s) + 1
  {
    var init := js[..|js| - 1];
    var k :| 0 <= k < |js| && js[k] == x;
    if k == |js| - 1 {
      assert x !in Ensemble(init);
      NombreHors(init, s, x);
    } else {
      assert init[k] == x;
      NombreAjout(init, s, x);
    }
  }

  /** When every element of the list is counted, they all are in `s`. */
  lemma {:induction false} NombrePlein<T>(js: seq<T>, s: set<T>)
    requires Nombre(js, s) == |js|
    ensures forall k | 0 <= k < |js| :: js[k] in s
  {
    if js != [] {
      NombrePlein(js[..|js| - 1], s);
    }
  }

  /** When fewer elements are counted than the list holds, one is not in `s`. */
  lemma {:induction false} NombreManque<T>(js: seq<T>, s: set<T>) returns (k: nat)
    requires Nombre(js, s) < |js|
    ensures k < |js| && js[k] !in s
  {
    if js[|js| - 1] in s {
      k := NombreManque(js[..|js| - 1], s);
    } else {
      k := |js| - 1;
    }
  }

  // ---------------------------------------------------------------------
  // Dealing

  /** How many cards round `numero` draws from the pile with `n` players:
      2n in the first round, n afterwards. */
  function Tirage(numero: int, n: nat): nat {
    if numero == 1 then 2 * n else n
  }

  /** The hands `distribuerCartes` builds from the pool: player k, in list
      order, gets the pool cards 2k and 2k+1 (a repeated player keeps the
      last hand put in the map). */
  function Distribution(js: seq<Joueur>, pool: seq<Carte>): (mains: map<Joueur, seq<Carte>>)
    requires 2 * |js| <= |pool|
    ensures forall p | p in mains :: |mains[p]| == 2
  {
    if js == [] then map[]
    else
      var k := |js| - 1;
      Distribution(js[..k], pool)[js[k] := pool[2 * k..2 * k + 2]]
  }

  /** Every player of the list, and nobody else, gets a hand. */
  lemma {:induction false} DistributionCles(js: seq<Joueur>, pool: seq<Carte>)
    requires 2 * |js| <= |pool|
    ensures Distribution(js, pool).Keys == Ensemble(js)
  {
    if js != [] {
      var k := |js| - 1;
      DistributionCles(js[..k], pool);
      assert Ensemble(js) == Ensemble(js[..k]) + {js[k]} by {
        assert forall i | 0 <= i < k :: js[..k][i] == js[i];
      }
    }
  }

  /** Each player, in list order, receives the next two pool cards; so the
      hands are disjoint slices that together make up the first 2n cards. */
  lemma {:induction false} DistributionMains(js: seq<Joueur>, pool: seq<Carte>)
    requires SansDoublon(js) && 2 * |js| <= |pool|
    ensures forall k | 0 <= k < |js| ::
              js[k] in Distribution(js, pool) && Distribution(js, pool)[js[k]] == pool[2 * k..2 * k + 2]
  {
    if js != [] {
      var k := |js| - 1;
      var init := js[..k];
      assert SansDoublon(init) by {
        assert forall i | 0 <= i < k :: init[i] == js[i];
      }
      DistributionMains(init, pool);
      var mains := Distribution(js, pool);
      assert mains == Distribution(init, pool)[js[k] := pool[2 * k..2 * k + 2]];
      forall i | 0 <= i < |js|
        ensures js[i] in mains && mains[js[i]] == pool[2 * i..2 * i + 2]
      {
        if i < k {
          assert init[i] == js[i] && js[i] != js[k];
        }
      }
    }
  }

  /** The map that files `vs[i]` under `ks[i]`, built by `put` calls in list order. */
  function Associe<K, V>(ks: seq<K>, vs: seq<V>): map<K, V>
    requires |ks| == |vs|
  {
    if ks == [] then map[]
    else
      var k := |ks| - 1;
      Associe(ks[..k], vs[..k])[ks[k] := vs[k]]
  }

  /** With distinct keys, each key finds its own value and nothing else is filed. */
  lemma {:induction false} AssocieValeurs<K, V>(ks: seq<K>, vs: seq<V>)
    requires |ks| == |vs| && SansDoublon(ks)
    ensures forall i | 0 <= i < |ks| :: ks[i] in Associe(ks, vs) && Associe(ks, vs)[ks[i]] == vs[i]
    ensures forall x | x in Associe(ks, vs) :: x in ks
  {
    if ks != [] {
      var k := |ks| - 1;
      assert SansDoublon(ks[..k]) by {
        assert forall i | 0 <= i < k :: ks[..k][i] == ks[i];
      }
      AssocieValeurs(ks[..k], vs[..k]);
      forall i | 0 <= i < |ks|
        ensures ks[i] in Associe(ks, vs) && Associe(ks, vs)[ks[i]] == vs[i]
      {
        if i < k {
          assert ks[..k][i] == ks[i] && vs[..k][i] == vs[i] && ks[i] != ks[k];
        }
      }
      forall x | x in Associe(ks, vs)
        ensures x in ks
      {
        if x != ks[k] {
          assert x in ks[..k];
        }
      }
    }
  }

  /** The hand of `p`, none when `p` has none. */
  function MainDe(mains: map<Joueur, seq<Carte>>, p: Joueur): seq<Carte> {
    if p in mains then mains[p] else []
  }

  /** The cards in the hands of the players `js`, player after player. */
  function CartesEnMain(js: seq<Joueur>, mains: map<Joueur, seq<Carte>>): seq<Carte> {
    if js == [] then []
    else CartesEnMain(js[..|js| - 1], mains) + MainDe(mains, js[|js| - 1])
  }

  /** No card is twice in the hands of the players `js`: in particular no
      card is in the hands of two of them (`MainsDisjointesPaire`). */
  predicate MainsDisjointes(js: seq<Joueur>, mains: map<Joueur, seq<Carte>>) {
    SansDoublon(CartesEnMain(js, mains))
  }

  /** Every card of the hand of one of `js` is among their cards. */
  lemma {:induction false} CartesEnMainContient(js: seq<Joueur>, mains: map<Joueur, seq<Carte>>, i: nat)
    requires i < |js|
    ensures forall c | c in MainDe(mains, js[i]) :: c in CartesEnMain(js, mains)
  {
    var n := |js| - 1;
    if i < n {
      CartesEnMainContient(js[..n], mains, i);
    }
  }

  /** A list without repetition is the concatenation of two lists without
      repetition and without a common element. */
  lemma SansDoublonConcat<T>(a: seq<T>, b: seq<T>)
    requires SansDoublon(a + b)
    ensures SansDoublon(a) && forall x | x in a :: x !in b
  {
    forall i, j | 0 <= i < j < |a|
      ensures a[i] != a[j]
    {
      assert a[i] == (a + b)[i] && a[j] == (a + b)[j];
    }
    forall i, j | 0 <= i < |a| && 0 <= j < |b|
      ensures a[i] != b[j]
    {
      assert a[i] == (a + b)[i] && b[j] == (a + b)[|a| + j];
    }
  }

  /** Hands dealt as consecutive pairs of a pool without repetition have no
      card in common. */
  lemma PiocheDistincteMainsDisjointes(js: seq<Joueur>, mains: map<Joueur, seq<Carte>>, pool: seq<Carte>)
    requires SansDoublon(pool) && 2 * |js| <= |pool|
    requires forall k | 0 <= k < |js| :: js[k] in mains && mains[js[k]] == pool[2 * k..2 * k + 2]
    ensures MainsDisjointes(js, mains)
  {
    CartesEnMainTranches(js, mains, pool);
    var debut := pool[..2 * |js|];
    assert forall i | 0 <= i < |debut| :: debut[i] == pool[i];
  }

  /** `m` is `s` reordered, as `Collections.shuffle` leaves it. */
  predicate Melange(m: seq<Carte>, s: seq<Carte>) {
    multiset(m) == multiset(s)
  }

  /** Every list has a reordering (itself, at least). */
  lemma MelangeExiste(s: seq<Carte>)
    ensures exists m: seq<Carte> :: Melange(m, s)
  {
    assert Melange(s, s);
  }

  /** Filing a value over a merged map is filing it in the map merged last. */
  lemma FusionMaj<K, V>(a: map<K, V>, b: map<K, V>, k: K, v: V)
    ensures a + b[k := v] == (a + b)[k := v]
  {
  }

  /** A new element appended to a list without repetition keeps it so. */
  lemma SansDoublonAjout<T>(s: seq<T>, x: T)
    requires SansDoublon(s) && x !in s
    ensures SansDoublon(s + [x])
  {
  }

  /** When no card is twice in the hands of `js`, two of them hold no
      card in common. */
  lemma {:induction false} MainsDisjointesPaire(js: seq<Joueur>, mains: map<Joueur, seq<Carte>>, i: nat, j: nat)
    requires MainsDisjointes(js, mains)
    requires i < |js| && j < |js| && i != j
    ensures forall c | c in MainDe(mains, js[i]) :: c !in MainDe(mains, js[j])
  {
    if j < i {
      MainsDisjointesPaire(js, mains, j, i);
    } else {
      var n := |js| - 1;
      var init := js[..n];
      SansDoublonConcat(CartesEnMain(init, mains), MainDe(mains, js[n]));
      if j < n {
        MainsDisjointesPaire(init, mains, i, j);
      } else {
        CartesEnMainContient(init, mains, i);
      }
    }
  }

  /** Hands cut as consecutive pairs of a pool hold, player after player,
      the pool's first cards. */
  lemma CartesEnMainTranches(js: seq<Joueur>, mains: map<Joueur, seq<Carte>>, pool: seq<Carte>)
    requires 2 * |js| <= |pool|
    requires forall k | 0 <= k < |js| :: js[k] in mains && mains[js[k]] == pool[2 * k..2 * k + 2]
    ensures CartesEnMain(js, mains) == pool[..2 * |js|]
  {
    CartesEnMainPrefixe(js, mains, pool, |js|);
    assert js[..|js|] == js;
  }

  /** The same for the first `i` players. */
  lemma {:induction false} CartesEnMainPrefixe(js: seq<Joueur>, mains: map<Joueur, seq<Carte>>, pool: seq<Carte>, i: nat)
    requires i <= |js| && 2 * |js| <= |pool|
    requires forall k | 0 <= k < |js| :: js[k] in mains && mains[js[k]] == pool[2 * k..2 * k + 2]
    ensures CartesEnMain(js[..i], mains) == pool[..2 * i]
  {
    if i > 0 {
      CartesEnMainPrefixe(js, mains, pool, i - 1);
      var debut := js[..i];
      assert debut[..i - 1] == js[..i - 1] && debut[i - 1] == js[i - 1];
      assert MainDe(mains, js[i - 1]) == pool[2 * (i - 1)..2 * i];
      assert pool[..2 * (i - 1)] + pool[2 * (i - 1)..2 * i] == pool[..2 * i];
    }
  }

  /** The cards of all hands. */
  ghost function CartesDes(mains: map<Joueur, seq<Carte>>): set<Carte> {
    set p, c | p in mains && c in mains[p] :: c
  }

  /** The cards of the hands dealt from a pool all come from the pool. */
  lemma {:induction false} DistributionDansPool(js: seq<Joueur>, pool: seq<Carte>)
    requires 2 * |js| <= |pool|
    ensures forall c | c in CartesDes(Distribution(js, pool)) :: c in pool
  {
    if js != [] {
      var k := |js| - 1;
      DistributionDansPool(js[..k], pool);
      assert forall c | c in pool[2 * k..2 * k + 2] :: c in pool;
    }
  }

  /** The card left visible when `cachee` is hidden: `main[0] == cachee ? main[1] : main[0]`. */
  function Autre(main: seq<Carte>, cachee: Carte): Carte
    requires |main| == 2
  {
    if main[0] == cachee then main[1] else main[0]
  }

  /** A hand of two becomes an offer holding exactly its two cards. */
  lemma AutreComplete(main: seq<Carte>, cachee: Carte)
    requires |main| == 2 && cachee in main
    ensures multiset{Autre(main, cachee), cachee} == multiset(main)
  {
    assert main == [main[0], main[1]];
  }

  // ---------------------------------------------------------------------
  // Pure views of the offers

  /** The visible card of each listed player's offer. */
  function Visibles(ordre: seq<Joueur>, etats: map<Joueur, Emplacements>): (cs: seq<Carte?>)
    requires forall i | 0 <= i < |ordre| :: ordre[i] in etats
    ensures |cs| == |ordre|
    ensures forall i | 0 <= i < |ordre| :: cs[i] == etats[ordre[i]].visible
  {
    seq(|ordre|, i requires 0 <= i < |ordre| => etats[ordre[i]].visible)
  }

  /** What the scan of `determinerJoueurSuivant` sees for each player in
      list order: the visible card of a player that has not played and has an
      offer, and nothing for the others. */
  function VisiblesRestants(js: seq<Joueur>, etats: map<Joueur, Emplacements>, joue: set<Joueur>): (cs: seq<Carte?>)
    ensures |cs| == |js|
    ensures forall k | 0 <= k < |js| ::
              cs[k] == if js[k] !in joue && js[k] in etats then etats[js[k]].visible else null
  {
    seq(|js|, k requires 0 <= k < |js| => if js[k] !in joue && js[k] in etats then etats[js[k]].visible else null)
  }

  /** The cards left in the listed offers, offer after offer. */
  function Restes(ordre: seq<Joueur>, etats: map<Joueur, Emplacements>): seq<Carte>
    requires forall i | 0 <= i < |ordre| :: ordre[i] in etats
  {
    if ordre == [] then []
    else Restes(ordre[..|ordre| - 1], etats) + etats[ordre[|ordre| - 1]].Cartes()
  }

  /** When every offer holds one card, the residue is one card per offer, in
      the order of the offers. */
  lemma {:induction false} RestesUnParOffre(ordre: seq<Joueur>, etats: map<Joueur, Emplacements>)
    requires forall i | 0 <= i < |ordre| :: ordre[i] in etats && etats[ordre[i]].Unique()
    ensures |Restes(ordre, etats)| == |ordre|
    ensures forall i | 0 <= i < |ordre| :: Restes(ordre, etats)[i] == etats[ordre[i]].Cartes()[0]
  {
    if ordre != [] {
      RestesUnParOffre(ordre[..|ordre| - 1], etats);
    }
  }

  /** What the scan of `determinerJoueurSuivant` finds: nobody exactly when
      no player that has not played shows a visible card; otherwise a player
      that has not played and shows a visible card that no such card beats. */
  lemma SuivantProprietes(js: seq<Joueur>, etats: map<Joueur, Emplacements>, joue: set<Joueur>)
    ensures var r := PlusForte(VisiblesRestants(js, etats, joue));
            (r.gagnant.None? <==>
               forall k | 0 <= k < |js| && js[k] !in joue && js[k] in etats :: etats[js[k]].visible == null)
            && (r.gagnant.Some? ==>
                  var g := js[r.gagnant.valeur];
                  g !in joue && g in etats && etats[g].visible != null
                  && forall k | 0 <= k < |js| && js[k] !in joue && js[k] in etats && etats[js[k]].visible != null ::
                       Rang(etats[js[k]].visible) <= Rang(etats[g].visible))
  {
    var cs := VisiblesRestants(js, etats, joue);
    PlusForteProprietes(cs);
  }

  // ---------------------------------------------------------------------
  // The taking phase, on values
  //
  // `e0` and `m0` are the offers and the Jests' cards before the phase,
  // `e` and `m` now; `joue` are the players that have taken, `source[p]` is
  // the owner of the offer `p` raided, `pris[p]` the card `p` took, and
  // `preneur[q]` the player that raided the offer of `q`.

  /** After `i` takings: `i` players took, each raiding one offer, out of
      one complete offer per player. */
  ghost predicate Compte(js: seq<Joueur>, e0: map<Joueur, Emplacements>, joue: set<Joueur>,
                         source: map<Joueur, Joueur>, preneur: map<Joueur, Joueur>, i: nat)
  {
    joue <= e0.Keys && source.Keys == joue && Nombre(js, joue) == i && Nombre(js, preneur.Keys) == i
    && (forall k | 0 <= k < |js| :: js[k] in e0) && (forall q | q in e0 :: e0[q].Complet())
  }

  /** `source` and `preneur` are inverse, every card taken was in the offer
      raided, and each raided offer lost exactly the card taken from it. */
  ghost predicate Raids(e0: map<Joueur, Emplacements>, e: map<Joueur, Emplacements>,
                        source: map<Joueur, Joueur>, pris: map<Joueur, Carte>, preneur: map<Joueur, Joueur>)
  {
    pris.Keys == source.Keys && e.Keys == e0.Keys
    && (forall q | q in preneur :: q in e0 && preneur[q] in source && source[preneur[q]] == q)
    && (forall p | p in source :: source[p] in preneur && preneur[source[p]] == p)
    && (forall p | p in source :: source[p] in e0 && e0[source[p]].Tient(pris[p]))
    && (forall q | q in e0 :: e[q] == if q in preneur then e0[q].Sans(pris[preneur[q]]) else e0[q])
  }

  /** The cards of the Jests `m`, in list order, once `actif` has added `carte` to theirs. */
  function Ajoute(js: seq<Joueur>, m: seq<seq<Carte>>, actif: Joueur, carte: Carte): seq<seq<Carte>>
    requires |m| == |js|
  {
    seq(|js|, k requires 0 <= k < |js| => if js[k] == actif then m[k] + [carte] else m[k])
  }

  /** `actif.ajouterCarteAuJest(carte)`, seen on the Jests of the players `js`. */
  method DonnerCarte(js: seq<Joueur>, actif: Joueur, carte: Carte, ghost offres: set<Offre>)
    modifies actif.jest`cartes
    ensures actif.jest.cartes == old(actif.jest.cartes) + [carte]
    ensures forall o | o in offres :: o.Etat() == old(o.Etat())
    ensures actif in Ensemble(js) && JestsDistincts(js) ==> MainsDe(js) == Ajoute(js, old(MainsDe(js)), actif, carte)
  {
    ghost var m0 := MainsDe(js);
    actif.AjouterCarteAuJest(carte);
    if actif in Ensemble(js) && JestsDistincts(js) {
      var i :| 0 <= i < |js| && js[i] == actif;
      forall k | 0 <= k < |js|
        ensures MainsDe(js)[k] == Ajoute(js, m0, actif, carte)[k]
      {
        if k != i {
          assert js[k].jest != js[i].jest;
        }
      }
    }
  }

  /** The cards of the Jests `m0`, in list order, once each player in
      `pris` has added the card they took. */
  function Avances(js: seq<Joueur>, m0: seq<seq<Carte>>, pris: map<Joueur, Carte>): seq<seq<Carte>>
    requires |m0| == |js|
  {
    seq(|js|, k requires 0 <= k < |js| => if js[k] in pris then m0[k] + [pris[js[k]]] else m0[k])
  }

  /** Each Jest gained the card its owner took, if any. */
  ghost predicate JestsAvances(js: seq<Joueur>, m0: seq<seq<Carte>>, m: seq<seq<Carte>>, pris: map<Joueur, Carte>) {
    |m0| == |js| && m == Avances(js, m0, pris)
  }

  /** Where the taking phase stands after `i` takings. */
  ghost predicate Avancee(js: seq<Joueur>, e0: map<Joueur, Emplacements>, e: map<Joueur, Emplacements>,
                          m0: seq<seq<Carte>>, m: seq<seq<Carte>>, joue: set<Joueur>,
                          source: map<Joueur, Joueur>, pris: map<Joueur, Carte>, preneur: map<Joueur, Joueur>, i: nat)
  {
    Compte(js, e0, joue, source, preneur, i) && Raids(e0, e, source, pris, preneur) && JestsAvances(js, m0, m, pris)
  }

  /** Before the first taking, nobody has played and nothing has changed. */
  lemma PrisesDebut(js: seq<Joueur>, e0: map<Joueur, Emplacements>, m0: seq<seq<Carte>>)
    requires |m0| == |js| && (forall k | 0 <= k < |js| :: js[k] in e0) && forall q | q in e0 :: e0[q].Complet()
    ensures Avancee(js, e0, e0, m0, m0, {}, map[], map[], map[], 0)
  {
    NombreVide(js);
    assert Avances(js, m0, map[]) == m0;
  }

  /** Every player that has not played, `actif` aside, still has an untouched offer. */
  ghost predicate Intactes(js: seq<Joueur>, joue: set<Joueur>, preneur: map<Joueur, Joueur>, actif: Joueur?) {
    forall k | 0 <= k < |js| && js[k] !in joue && js[k] != actif :: js[k] !in preneur
  }

  /** After `actif` raids the offer of `proprietaire`, the players that have
      not played still have untouched offers, the raided owner aside when
      they have not played. */
  lemma IntactesEtape(js: seq<Joueur>, joue: set<Joueur>, preneur: map<Joueur, Joueur>, actif: Joueur, proprietaire: Joueur)
    requires Intactes(js, joue, preneur, actif)
    ensures Intactes(js, joue + {actif}, preneur[proprietaire := actif],
                     if proprietaire in joue + {actif} then null else proprietaire)
  {
  }

  /** The outcome of the taking phase: every player took one card, each from
      a different offer, which lost exactly that card; every offer holds one
      card now; each Jest gained the card its owner took. */
  ghost predicate Prises(js: seq<Joueur>, e0: map<Joueur, Emplacements>, e: map<Joueur, Emplacements>,
                         m0: seq<seq<Carte>>, m: seq<seq<Carte>>, source: map<Joueur, Joueur>, pris: map<Joueur, Carte>)
  {
    (forall k | 0 <= k < |js| :: js[k] in source) && pris.Keys == source.Keys && e.Keys == e0.Keys
    && Injective(source) && OffresPrises(e0, e, source, pris) && Restantes(js, e0, e)
    && JestsAvances(js, m0, m, pris)
  }

  /** No two players raided the same offer. */
  ghost predicate Injective(source: map<Joueur, Joueur>) {
    forall p, q | p in source && q in source && p != q :: source[p] != source[q]
  }

  /** Each player took a card of the offer they raided, which lost exactly that card. */
  ghost predicate OffresPrises(e0: map<Joueur, Emplacements>, e: map<Joueur, Emplacements>,
                               source: map<Joueur, Joueur>, pris: map<Joueur, Carte>)
    requires pris.Keys == source.Keys && e.Keys == e0.Keys
  {
    forall p | p in source ::
      source[p] in e0 && e0[source[p]].Tient(pris[p]) && e[source[p]] == e0[source[p]].Sans(pris[p])
  }

  /** Every offer lost one of its cards and holds exactly one card. */
  ghost predicate Restantes(js: seq<Joueur>, e0: map<Joueur, Emplacements>, e: map<Joueur, Emplacements>) {
    forall k | 0 <= k < |js| :: js[k] in e0 && js[k] in e && e0[js[k]].PerdUne(e[js[k]]) && e[js[k]].Unique()
  }

  /** While fewer takings than players are done, some offer is still complete. */
  lemma OffreCompleteRestante(js: seq<Joueur>, e0: map<Joueur, Emplacements>, e: map<Joueur, Emplacements>,
                              joue: set<Joueur>, source: map<Joueur, Joueur>, pris: map<Joueur, Carte>,
                              preneur: map<Joueur, Joueur>, i: nat)
    requires Compte(js, e0, joue, source, preneur, i) && Raids(e0, e, source, pris, preneur) && i < |js|
    ensures exists q :: q in e && e[q].Complet()
  {
    var k := NombreManque(js, preneur.Keys);
    assert e[js[k]] == e0[js[k]];
  }

  /** A taking from an offer that is still complete: that offer had not been
      raided, and the raids stay consistent. */
  lemma RaidsEtape(e0: map<Joueur, Emplacements>, e: map<Joueur, Emplacements>,
                   source: map<Joueur, Joueur>, pris: map<Joueur, Carte>, preneur: map<Joueur, Joueur>,
                   actif: Joueur, proprietaire: Joueur, carte: Carte)
    requires Raids(e0, e, source, pris, preneur) && actif !in source
    requires proprietaire in e && e[proprietaire].Complet() && e[proprietaire].Tient(carte)
    ensures proprietaire !in preneur
    ensures Raids(e0, e[proprietaire := e[proprietaire].Sans(carte)], source[actif := proprietaire],
                  pris[actif := carte], preneur[proprietaire := actif])
  {
    if proprietaire in preneur {
      SansRetire(e0[proprietaire], pris[preneur[proprietaire]]);
    }
  }

  /** One taking: `actif`, who has not played, takes `carte` from the
      complete offer of `proprietaire`.  That offer had not been raided, and
      the phase advances by one taking. */
  lemma PriseEtape(js: seq<Joueur>, e0: map<Joueur, Emplacements>, e: map<Joueur, Emplacements>,
                   m0: seq<seq<Carte>>, m: seq<seq<Carte>>, joue: set<Joueur>,
                   source: map<Joueur, Joueur>, pris: map<Joueur, Carte>, preneur: map<Joueur, Joueur>, i: nat,
                   actif: Joueur, proprietaire: Joueur, carte: Carte,
                   e': map<Joueur, Emplacements>, m': seq<seq<Carte>>, joue': set<Joueur>)
    requires SansDoublon(js) && Avancee(js, e0, e, m0, m, joue, source, pris, preneur, i)
    requires Intactes(js, joue, preneur, actif)
    requires actif in e0 && actif in Ensemble(js) && actif !in joue
    requires proprietaire in e && proprietaire in Ensemble(js)
    requires e[proprietaire].Complet() && e[proprietaire].Tient(carte)
    requires e' == e[proprietaire := e[proprietaire].Sans(carte)]
    requires m' == Ajoute(js, m, actif, carte) && joue' == joue + {actif}
    ensures proprietaire !in preneur
    ensures Avancee(js, e0, e', m0, m', joue',
                    source[actif := proprietaire], pris[actif := carte], preneur[proprietaire := actif], i + 1)
    ensures Intactes(js, joue', preneur[proprietaire := actif], if proprietaire in joue' then null else proprietaire)
  {
    RaidsEtape(e0, e, source, pris, preneur, actif, proprietaire, carte);
    CompteEtape(js, e0, joue, source, preneur, i, actif, proprietaire);
    JestsEtape(js, m0, m, pris, actif, carte, m');
    IntactesEtape(js, joue, preneur, actif, proprietaire);
  }

  /** The counts advance by one when a player that has not played raids an
      offer not raided yet. */
  lemma CompteEtape(js: seq<Joueur>, e0: map<Joueur, Emplacements>, joue: set<Joueur>,
                    source: map<Joueur, Joueur>, preneur: map<Joueur, Joueur>, i: nat,
                    actif: Joueur, proprietaire: Joueur)
    requires SansDoublon(js) && Compte(js, e0, joue, source, preneur, i)
    requires actif in e0 && actif in Ensemble(js) && actif !in joue
    requires proprietaire in Ensemble(js) && proprietaire !in preneur
    ensures Compte(js, e0, joue + {actif}, source[actif := proprietaire], preneur[proprietaire := actif], i + 1)
  {
    NombreAjout(js, joue, actif);
    NombreAjout(js, preneur.Keys, proprietaire);
    assert preneur[proprietaire := actif].Keys == preneur.Keys + {proprietaire};
  }

  /** Only the Jest of the player that takes gains a card. */
  lemma JestsEtape(js: seq<Joueur>, m0: seq<seq<Carte>>, m: seq<seq<Carte>>, pris: map<Joueur, Carte>,
                   actif: Joueur, carte: Carte, m': seq<seq<Carte>>)
    requires JestsAvances(js, m0, m, pris) && actif !in pris && m' == Ajoute(js, m, actif, carte)
    ensures JestsAvances(js, m0, m', pris[actif := carte])
  {
  }

  /** When the raided owner has already played, the strongest-card scan
      over the players that have not played finds one of them, provided
      some player has not played and all those have untouched offers. */
  lemma SuivantTrouve(js: seq<Joueur>, e0: map<Joueur, Emplacements>, e: map<Joueur, Emplacements>,
                      joue: set<Joueur>, source: map<Joueur, Joueur>, pris: map<Joueur, Carte>,
                      preneur: map<Joueur, Joueur>, i: nat)
    requires Compte(js, e0, joue, source, preneur, i) && Raids(e0, e, source, pris, preneur)
    requires i < |js| && Intactes(js, joue, preneur, null)
    ensures var g := PlusForte(VisiblesRestants(js, e, joue)).gagnant;
            g.Some? && g.valeur < |js| && Designe(js, g) != null && Designe(js, g) !in joue && Designe(js, g) in e
  {
    var k := NombreManque(js, joue);
    assert e[js[k]] == e0[js[k]];
    SuivantProprietes(js, e, joue);
  }

  /** Once the offer of every listed player has been raided, the raids are
      those of a finished phase. */
  lemma RaidsFinis(js: seq<Joueur>, e0: map<Joueur, Emplacements>, e: map<Joueur, Emplacements>,
                   source: map<Joueur, Joueur>, pris: map<Joueur, Carte>, preneur: map<Joueur, Joueur>)
    requires Raids(e0, e, source, pris, preneur)
    requires forall k | 0 <= k < |js| :: js[k] in preneur
    requires forall q | q in e0 :: e0[q].Complet()
    ensures Injective(source) && OffresPrises(e0, e, source, pris) && Restantes(js, e0, e)
  {
    forall k | 0 <= k < |js|
      ensures js[k] in e0 && js[k] in e && e0[js[k]].PerdUne(e[js[k]]) && e[js[k]].Unique()
    {
      SansRetire(e0[js[k]], pris[preneur[js[k]]]);
    }
  }

  /** After as many takings as players, the phase is over. */
  lemma PrisesFinales(js: seq<Joueur>, e0: map<Joueur, Emplacements>, e: map<Joueur, Emplacements>,
                      m0: seq<seq<Carte>>, m: seq<seq<Carte>>, joue: set<Joueur>,
                      source: map<Joueur, Joueur>, pris: map<Joueur, Carte>, preneur: map<Joueur, Joueur>)
    requires Avancee(js, e0, e, m0, m, joue, source, pris, preneur, |js|)
    ensures forall k | 0 <= k < |js| :: js[k] in joue
    ensures Prises(js, e0, e, m0, m, source, pris)
  {
    TousOntJoue(js, e0, joue, source, preneur);
    RaidsFinis(js, e0, e, source, pris, preneur);
  }

  /** At the end of the taking phase the players who have played are exactly the players. */
  lemma Conclusion(js: seq<Joueur>, e0: map<Joueur, Emplacements>, e: map<Joueur, Emplacements>,
                   m0: seq<seq<Carte>>, m: seq<seq<Carte>>, joue: set<Joueur>,
                   source: map<Joueur, Joueur>, pris: map<Joueur, Carte>, preneur: map<Joueur, Joueur>)
    requires Avancee(js, e0, e, m0, m, joue, source, pris, preneur, |js|) && e0.Keys == Ensemble(js)
    ensures joue == Ensemble(js)
    ensures Prises(js, e0, e, m0, m, source, pris)
  {
    PrisesFinales(js, e0, e, m0, m, joue, source, pris, preneur);
    TousDans(joue, e0.Keys, js);
  }

  /** After as many takings as players, every player has played and every
      offer has been raided. */
  lemma TousOntJoue(js: seq<Joueur>, e0: map<Joueur, Emplacements>, joue: set<Joueur>,
                    source: map<Joueur, Joueur>, preneur: map<Joueur, Joueur>)
    requires Compte(js, e0, joue, source, preneur, |js|)
    ensures forall k | 0 <= k < |js| :: js[k] in joue && js[k] in preneur
  {
    NombrePlein(js, joue);
    NombrePlein(js, preneur.Keys);
  }

  /** Once every player has taken, each Jest gained exactly the card its owner took. */
  lemma AvancesToutes(js: seq<Joueur>, m0: seq<seq<Carte>>, pris: map<Joueur, Carte>)
    requires |m0| == |js| && forall k | 0 <= k < |js| :: js[k] in pris
    ensures |Avances(js, m0, pris)| == |js|
    ensures forall k | 0 <= k < |js| :: Avances(js, m0, pris)[k] == m0[k] + [pris[js[k]]]
  {
  }

  class Tour {
    const numero: int
    const joueurs: seq<Joueur>
    const pioche: Pioche
    var offres: map<Joueur, Offre>
    var cartesResiduelles: seq<Carte>
    var joueursAyantJoue: set<Joueur>

    /** A round with no offer yet, no residue and nobody having played. */
    constructor (numero: int, joueurs: seq<Joueur>, pioche: Pioche)
      ensures this.numero == numero && this.joueurs == joueurs && this.pioche == pioche
      ensures offres == map[] && cartesResiduelles == [] && joueursAyantJoue == {}
    {
      this.numero := numero;
      this.joueurs := joueurs;
      this.pioche := pioche;
      offres := map[];
      cartesResiduelles := [];
      joueursAyantJoue := {};
    }

    /** The offer objects. */
    ghost function Offres(): set<Offre>
      reads this`offres
    {
      set p | p in offres :: offres[p]
    }

    /** The slots of every offer, as values. */
    ghost function EtatOffres(): (etats: map<Joueur, Emplacements>)
      reads this`offres, Offres()`carteVisible, Offres()`carteCachee
      ensures etats.Keys == offres.Keys
      ensures forall p | p in offres :: etats[p] == offres[p].Etat()
    {
      map p | p in offres :: offres[p].Etat()
    }

    /** Each offer is filed under its owner, and no two owners share an offer. */
    ghost predicate Valide()
      reads this`offres
    {
      (forall p | p in offres :: offres[p].proprietaire == p)
      && forall p, q | p in offres && q in offres && p != q :: offres[p] != offres[q]
    }

    /** How many cards round `numero` draws from the pile. */
    function APiocher(): int {
      Tirage(numero, |joueurs|)
    }

    method SetCartesResiduelles(cartes: seq<Carte>)
      modifies this`cartesResiduelles
      ensures cartesResiduelles == cartes
    {
      cartesResiduelles := cartes;
    }

    /** `distribuerCartes`.  Round 1 draws 2n cards; a later round pools the
        residue with n freshly drawn cards and shuffles the pool.  A draw the
        pile cannot serve fails with IllegalStateException and the pile keeps
        its cards; a pool of fewer than 2n cards fails with
        IndexOutOfBoundsException while dealing.  Otherwise the hands are
        `Distribution(joueurs, pool)`. */
    method DistribuerCartes() returns (r: Resultat<map<Joueur, seq<Carte>>>, ghost pool: seq<Carte>)
      modifies pioche
      ensures APiocher() > |old(pioche.cartes)| ==>
                r == Echec(EtatIllegal) && pioche.cartes == old(pioche.cartes)
      ensures APiocher() <= |old(pioche.cartes)| ==>
                pioche.cartes == old(pioche.cartes)[..|old(pioche.cartes)| - APiocher()]
      ensures APiocher() <= |old(pioche.cartes)| && numero == 1 ==>
                pool == Dessus(old(pioche.cartes), 2 * |joueurs|)
      ensures APiocher() <= |old(pioche.cartes)| && numero != 1 ==>
                multiset(pool) == multiset(cartesResiduelles) + multiset(Dessus(old(pioche.cartes), |joueurs|))
      ensures APiocher() <= |old(pioche.cartes)| ==>
                (|pool| < 2 * |joueurs| ==> r == Echec(IndiceHorsBornes))
                && (|pool| >= 2 * |joueurs| ==> r == Ok(Distribution(joueurs, pool)))
    {
      pool := [];
      var tirage := Rassembler();
      if tirage.Echec? {
        r := Echec(tirage.erreur);
        return;
      }
      pool := tirage.valeur;
      r := Repartir(tirage.valeur);
    }

    /** The first half of `distribuerCartes`: the cards to deal, drawn from
        the pile (and, after round 1, pooled with the residue and shuffled). */
    method Rassembler() returns (r: Resultat<seq<Carte>>)
      modifies pioche
      ensures APiocher() > |old(pioche.cartes)| ==>
                r == Echec(EtatIllegal) && pioche.cartes == old(pioche.cartes)
      ensures APiocher() <= |old(pioche.cartes)| ==>
                r.Ok? && pioche.cartes == old(pioche.cartes)[..|old(pioche.cartes)| - APiocher()]
      ensures r.Ok? && numero == 1 ==> r.valeur == Dessus(old(pioche.cartes), 2 * |joueurs|)
      ensures r.Ok? && numero != 1 ==>
                multiset(r.valeur) == multiset(cartesResiduelles) + multiset(Dessus(old(pioche.cartes), |joueurs|))
    {
      if numero == 1 {
        var nbCartes := |joueurs| * 2;
        r := pioche.PiocherPlusieurs(nbCartes);
      } else {
        var cartesADistribuer := cartesResiduelles;
        var nbCartesManquantes := |joueurs|;
        var piochees := pioche.PiocherPlusieurs(nbCartesManquantes);
        if piochees.Echec? {
          return Echec(piochees.erreur);
        }
        cartesADistribuer := cartesADistribuer + piochees.valeur;
        MelangeExiste(cartesADistribuer);
        var melange: seq<Carte> :| Melange(melange, cartesADistribuer);
        r := Ok(melange);
      }
    }

    /** The dealing loop of `distribuerCartes`: each player in list order
        takes the next two cards of the pool; running out of cards fails with
        IndexOutOfBoundsException. */
    method Repartir(cartesADistribuer: seq<Carte>) returns (r: Resultat<map<Joueur, seq<Carte>>>)
      ensures |cartesADistribuer| < 2 * |joueurs| ==> r == Echec(IndiceHorsBornes)
      ensures |cartesADistribuer| >= 2 * |joueurs| ==> r == Ok(Distribution(joueurs, cartesADistribuer))
    {
      var mains: map<Joueur, seq<Carte>> := map[];
      var index := 0;
      for k := 0 to |joueurs|
        invariant index == 2 * k <= |cartesADistribuer|
        invariant mains == Distribution(joueurs[..k], cartesADistribuer)
      {
        if index + 1 >= |cartesADistribuer| {
          return Echec(IndiceHorsBornes);
        }
        var main := [cartesADistribuer[index], cartesADistribuer[index + 1]];
        assert main == cartesADistribuer[2 * k..2 * k + 2];
        index := index + 2;
        assert joueurs[..k + 1][..k] == joueurs[..k];
        assert Distribution(joueurs[..k + 1], cartesADistribuer)
            == Distribution(joueurs[..k], cartesADistribuer)[joueurs[k] := main];
        mains := mains[joueurs[k] := main];
      }
      assert joueurs[..|joueurs|] == joueurs;
      r := Ok(mains);
    }

    /** `creerOffres(mains)`: each player, in list order, picks the card of
        their hand to hide; the other card is put face up, the chosen one face
        down, in a new offer filed under the player. */
    method CreerOffres(mains: map<Joueur, seq<Carte>>)
      requires SansDoublon(joueurs)
      requires forall i | 0 <= i < |joueurs| :: joueurs[i] in mains && |mains[joueurs[i]]| == 2
      modifies this`offres, CartesDes(mains)`estVisible
      ensures offres.Keys == old(offres).Keys + Ensemble(joueurs)
      ensures forall p | p in old(offres) && p !in Ensemble(joueurs) :: offres[p] == old(offres)[p]
      ensures forall i | 0 <= i < |joueurs| ::
                joueurs[i] in offres && fresh(offres[joueurs[i]])
                && OffreDe(offres[joueurs[i]], joueurs[i], mains[joueurs[i]])
      ensures forall i, j | 0 <= i < j < |joueurs| :: offres[joueurs[i]] != offres[joueurs[j]]
      ensures MainsDisjointes(joueurs, mains) ==>
                forall i | 0 <= i < |joueurs| :: FacesOffre(offres[joueurs[i]], mains[joueurs[i]])
    {
      ghost var anciennes := offres;
      ghost var disjointes := MainsDisjointes(joueurs, mains);
      ghost var creees: seq<Offre> := [];
      for k := 0 to |joueurs|
        invariant Creees(k, mains, disjointes, anciennes, offres, creees)
        invariant forall o | o in creees :: fresh(o)
      {
        var offre := OffreSuivante(k, mains, disjointes, anciennes, creees);
        creees := creees + [offre];
      }
      OffresCreees(mains, disjointes, anciennes, offres, creees);
      assert forall i | 0 <= i < |joueurs| :: creees[i] in creees;
    }

    /** After `k` passes of the loop of `creerOffres`: the offers `creees`
        of the first `k` players, distinct, filed under them over the offers
        `anciennes` to give `offres`, each holding its owner's hand and, when
        `disjointes` (no card is in two hands), showing its visible card and
        hiding the other. */
    ghost predicate Creees(k: nat, mains: map<Joueur, seq<Carte>>, disjointes: bool,
                           anciennes: map<Joueur, Offre>, offres: map<Joueur, Offre>, creees: seq<Offre>)
      requires forall i | 0 <= i < |joueurs| :: joueurs[i] in mains && |mains[joueurs[i]]| == 2
      reads set i | 0 <= i < |creees| :: creees[i]
      reads CartesDes(mains)
    {
      k <= |joueurs| && |creees| == k && offres == anciennes + Associe(joueurs[..k], creees)
      && (forall i | 0 <= i < k :: OffreDe(creees[i], joueurs[i], mains[joueurs[i]]))
      && SansDoublon(creees)
      && (disjointes ==>
            forall i | 0 <= i < k :: DansMains(mains, joueurs[i]) && FacesOffre(creees[i], mains[joueurs[i]]))
    }

    /** What the loop of `creerOffres` has built once every player has had
        their turn. */
    lemma OffresCreees(mains: map<Joueur, seq<Carte>>, disjointes: bool,
                       anciennes: map<Joueur, Offre>, offres: map<Joueur, Offre>, creees: seq<Offre>)
      requires SansDoublon(joueurs)
      requires forall i | 0 <= i < |joueurs| :: joueurs[i] in mains && |mains[joueurs[i]]| == 2
      requires Creees(|joueurs|, mains, disjointes, anciennes, offres, creees)
      ensures offres.Keys == anciennes.Keys + Ensemble(joueurs)
      ensures forall p | p in anciennes && p !in Ensemble(joueurs) :: offres[p] == anciennes[p]
      ensures forall i | 0 <= i < |joueurs| ::
                joueurs[i] in offres && offres[joueurs[i]] == creees[i]
                && OffreDe(offres[joueurs[i]], joueurs[i], mains[joueurs[i]])
      ensures forall i, j | 0 <= i < j < |joueurs| :: offres[joueurs[i]] != offres[joueurs[j]]
      ensures disjointes ==>
                forall i | 0 <= i < |joueurs| :: FacesOffre(offres[joueurs[i]], mains[joueurs[i]])
    {
      assert joueurs[..|joueurs|] == joueurs;
      var nouvelles := Associe(joueurs, creees);
      AssocieValeurs(joueurs, creees);
      assert nouvelles.Keys == Ensemble(joueurs) by {
        forall p | p in nouvelles
          ensures p in Ensemble(joueurs)
        {
          var i :| 0 <= i < |joueurs| && joueurs[i] == p;
        }
      }
    }

    /** The cards of one hand are among the cards of all hands. */
    ghost predicate DansMains(mains: map<Joueur, seq<Carte>>, p: Joueur) {
      p in mains && forall c | c in mains[p] :: c in CartesDes(mains)
    }

    /** One pass of the loop of `creerOffres`: the offer of player `k`,
        filed under them. */
    method OffreSuivante(k: nat, mains: map<Joueur, seq<Carte>>, ghost disjointes: bool,
                         ghost anciennes: map<Joueur, Offre>, ghost creees: seq<Offre>)
      returns (offre: Offre)
      requires SansDoublon(joueurs)
      requires forall i | 0 <= i < |joueurs| :: joueurs[i] in mains && |mains[joueurs[i]]| == 2
      requires disjointes ==> MainsDisjointes(joueurs, mains)
      requires k < |joueurs| && Creees(k, mains, disjointes, anciennes, offres, creees)
      modifies this`offres, CartesDes(mains)`estVisible
      ensures fresh(offre) && Creees(k + 1, mains, disjointes, anciennes, offres, creees + [offre])
    {
      var joueur := joueurs[k];
      assert DansMains(mains, joueur);
      offre := CreerOffre(joueur, mains[joueur], creees);
      offres := offres[joueur := offre];
      if disjointes {
        forall i | 0 <= i < k
          ensures FacesOffre(creees[i], mains[joueurs[i]])
        {
          MainsDisjointesPaire(joueurs, mains, i, k);
          assert old(FacesOffre(creees[i], mains[joueurs[i]]));
          assert creees[i].carteCachee in MainDe(mains, joueurs[i]);
          assert creees[i].carteVisible in MainDe(mains, joueurs[i]);
          assert creees[i].carteVisible !in mains[joueur] && creees[i].carteCachee !in mains[joueur];
        }
      }
      assert offre !in creees;
      ghost var avant := Associe(joueurs[..k], creees);
      assert joueurs[..k + 1][..k] == joueurs[..k];
      assert (creees + [offre])[..k] == creees;
      assert Associe(joueurs[..k + 1], creees + [offre]) == avant[joueur := offre];
      FusionMaj(anciennes, avant, joueur, offre);
      CreeesAjout(k, mains, disjointes, anciennes, offres, creees, offre);
    }

    /** One more offer, for player `k`, keeps `Creees`. */
    lemma CreeesAjout(k: nat, mains: map<Joueur, seq<Carte>>, disjointes: bool,
                      anciennes: map<Joueur, Offre>, offres: map<Joueur, Offre>, creees: seq<Offre>, offre: Offre)
      requires forall i | 0 <= i < |joueurs| :: joueurs[i] in mains && |mains[joueurs[i]]| == 2
      requires k < |joueurs| && |creees| == k
      requires offres == anciennes + Associe(joueurs[..k + 1], creees + [offre])
      requires forall i | 0 <= i < k :: OffreDe(creees[i], joueurs[i], mains[joueurs[i]])
      requires OffreDe(offre, joueurs[k], mains[joueurs[k]])
      requires SansDoublon(creees) && offre !in creees
      requires disjointes ==>
                 (forall i | 0 <= i < k :: DansMains(mains, joueurs[i]) && FacesOffre(creees[i], mains[joueurs[i]]))
                 && DansMains(mains, joueurs[k]) && FacesOffre(offre, mains[joueurs[k]])
      ensures Creees(k + 1, mains, disjointes, anciennes, offres, creees + [offre])
    {
      SansDoublonAjout(creees, offre);
      var creees' := creees + [offre];
      assert forall i | 0 <= i < k :: creees'[i] == creees[i];
    }

    /** The offer `o` belongs to `p` and holds the hand `main`: a chosen card
        of it hidden, the other one visible. */
    ghost predicate OffreDe(o: Offre, p: Joueur, main: seq<Carte>)
      reads o`carteVisible, o`carteCachee
    {
      |main| == 2 && o.proprietaire == p && o.carteCachee != null && o.carteCachee in main
      && o.carteVisible == Autre(main, o.carteCachee)
    }

    /** `ajouterCarte` turned the offer's visible card, a card of `main`,
        face up and its hidden card face down (one card in both slots ends
        face down). */
    ghost predicate FacesOffre(o: Offre, main: seq<Carte>)
      reads o, o.carteVisible, o.carteCachee
    {
      o.carteVisible != null && o.carteVisible in main && o.carteCachee != null && o.carteCachee in main
      && !o.carteCachee.estVisible && (o.carteVisible != o.carteCachee ==> o.carteVisible.estVisible)
    }

    /** The body of the loop of `creerOffres` for one player and their hand. */
    method CreerOffre(joueur: Joueur, main: seq<Carte>, ghost anciennes: seq<Offre>) returns (offre: Offre)
      requires |main| == 2
      modifies (main[0] as Carte)`estVisible, (main[1] as Carte)`estVisible
      ensures fresh(offre) && OffreDe(offre, joueur, main) && FacesOffre(offre, main)
      ensures forall k | 0 <= k < |anciennes| ::
                anciennes[k].carteVisible == old(anciennes[k].carteVisible)
                && anciennes[k].carteCachee == old(anciennes[k].carteCachee)
    {
      assert main[0] in main;
      var carteCachee: Carte :| carteCachee in main;
      var carteVisible := if main[0] == carteCachee then main[1] else main[0];
      offre := new Offre(joueur);
      var _ := offre.AjouterCarte(carteVisible, true);
      var _ := offre.AjouterCarte(carteCachee, false);
    }

    /** `determinerPremierJoueur`: the owner of an offer whose visible card
        no other visible card beats (the first such offer in the map's
        order), or null when there is no offer.  Every offer must have its
        visible card, else `comparerForce` is called on null. */
    method DeterminerPremierJoueur() returns (premier: Joueur?)
      requires forall p | p in offres :: offres[p].carteVisible != null
      ensures premier == null <==> offres == map[]
      ensures premier != null ==>
                premier in offres
                && forall p | p in offres :: Rang(offres[p].carteVisible) <= Rang(offres[premier].carteVisible)
    {
      EnumerationExiste(offres.Keys);
      var ordre: seq<Joueur> :| Enumere(ordre, offres.Keys);
      ghost var cs := Visibles(ordre, EtatOffres());
      premier := null;
      var carteMax: Carte? := null;
      for i := 0 to |ordre|
        invariant carteMax == PlusForte(cs[..i]).carte
        invariant premier == Designe(ordre, PlusForte(cs[..i]).gagnant)
      {
        PlusForteEtape(cs, i);
        var carteVisible := offres[ordre[i]].carteVisible;
        if carteMax == null || carteVisible.ComparerForce(carteMax) > 0 {
          carteMax := carteVisible;
          premier := ordre[i];
        }
      }
      assert cs[..|ordre|] == cs;
      PlusForteProprietes(cs);
      if offres != map[] {
        var p :| p in offres;
        assert p in Ensemble(ordre);
      }
      forall p | p in offres
        ensures Rang(offres[p].carteVisible) <= Rang(carteMax)
      {
        assert p in Ensemble(ordre);
        var i :| 0 <= i < |ordre| && ordre[i] == p;
        assert cs[i] == offres[p].carteVisible;
      }
    }

    /** `executerPrisesCartes`: starting from `determinerPremierJoueur`,
        each player takes one card from an available offer, then the raided
        owner plays next if they have not played yet, and otherwise the
        strongest visible card among those who have not played designates the
        next player.  Since only complete offers are available, every player
        takes exactly one card from a different offer, so each offer ends with
        one card.  `source` tells whose offer each player raided and `pris`
        the card taken. */
    method ExecuterPrisesCartes() returns (ghost source: map<Joueur, Joueur>, ghost pris: map<Joueur, Carte>)
      requires SansDoublon(joueurs) && |joueurs| >= 1 && JestsDistincts(joueurs)
      requires Valide() && offres.Keys == Ensemble(joueurs)
      requires forall p | p in offres :: offres[p].EstComplete()
      requires joueursAyantJoue == {}
      modifies this`joueursAyantJoue, Offres()`carteVisible, Offres()`carteCachee, JestsDe(joueurs)`cartes
      ensures joueursAyantJoue == Ensemble(joueurs)
      ensures Prises(joueurs, old(EtatOffres()), EtatOffres(), old(MainsDe(joueurs)), MainsDe(joueurs), source, pris)
    {
      ghost var etats0, mains0 := EtatOffres(), MainsDe(joueurs);
      assert joueurs[0] in offres;
      var actif: Joueur? := DeterminerPremierJoueur();
      assert EtatOffres() == etats0 && MainsDe(joueurs) == mains0;
      PrisesDebut(joueurs, etats0, mains0);
      ghost var preneur;
      source, pris, preneur := Passes(actif, etats0, mains0);
      Conclusion(joueurs, etats0, EtatOffres(), mains0, MainsDe(joueurs), joueursAyantJoue, source, pris, preneur);
    }

    /** The loop of `executerPrisesCartes`, one pass per player. */
    method Passes(premier: Joueur?, ghost e0: map<Joueur, Emplacements>, ghost m0: seq<seq<Carte>>)
      returns (ghost source: map<Joueur, Joueur>, ghost pris: map<Joueur, Carte>, ghost preneur: map<Joueur, Joueur>)
      requires EnCours(0, premier, e0, m0, map[], map[], map[])
      modifies this`joueursAyantJoue, Offres()`carteVisible, Offres()`carteCachee, JestsDe(joueurs)`cartes
      ensures EnCours(|joueurs|, null, e0, m0, source, pris, preneur)
    {
      source, pris, preneur := map[], map[], map[];
      var actif := premier;
      for i := 0 to |joueurs|
        invariant EnCours(i, actif, e0, m0, source, pris, preneur)
      {
        actif, source, pris, preneur := Pas(actif, i, e0, m0, source, pris, preneur);
      }
    }

    /** Where the loop of `executerPrisesCartes` stands before its `i`-th
        pass: the phase has advanced by `i` takings and, while players remain,
        `actif` is one that has not played and every other such player still
        has an untouched offer. */
    ghost predicate EnCours(i: nat, actif: Joueur?, e0: map<Joueur, Emplacements>, m0: seq<seq<Carte>>,
                            source: map<Joueur, Joueur>, pris: map<Joueur, Carte>, preneur: map<Joueur, Joueur>)
      reads this, Offres()`carteVisible, Offres()`carteCachee, JestsDe(joueurs)
    {
      SansDoublon(joueurs) && JestsDistincts(joueurs) && Valide() && offres.Keys == Ensemble(joueurs)
      && i <= |joueurs|
      && Avancee(joueurs, e0, EtatOffres(), m0, MainsDe(joueurs), joueursAyantJoue, source, pris, preneur, i)
      && (i < |joueurs| ==>
            actif != null && actif in offres && actif !in joueursAyantJoue
            && Intactes(joueurs, joueursAyantJoue, preneur, actif))
    }

    /** The `i`-th pass of the loop of `executerPrisesCartes`: `actif` takes
        a card, then, unless this was the last pass, the next player is
        determined. */
    method Pas(actif: Joueur?, i: nat, ghost e0: map<Joueur, Emplacements>, ghost m0: seq<seq<Carte>>,
               ghost source: map<Joueur, Joueur>, ghost pris: map<Joueur, Carte>, ghost preneur: map<Joueur, Joueur>)
      returns (suivant: Joueur?, ghost source': map<Joueur, Joueur>, ghost pris': map<Joueur, Carte>,
               ghost preneur': map<Joueur, Joueur>)
      requires i < |joueurs| && EnCours(i, actif, e0, m0, source, pris, preneur)
      modifies this`joueursAyantJoue, Offres()`carteVisible, Offres()`carteCachee, JestsDe(joueurs)`cartes
      ensures EnCours(i + 1, suivant, e0, m0, source', pris', preneur')
    {
      var proprietaire;
      proprietaire, source', pris', preneur' := PriseDe(actif, i, e0, m0, source, pris, preneur);
      suivant := actif;
      if i < |joueurs| - 1 {
        suivant := Suivant(proprietaire, i + 1, e0, source', pris', preneur');
      }
    }

    /** The `i`-th pass of the loop of `executerPrisesCartes`, up to the
        choice of the next player: `actif` takes a card from an offer not
        raided yet, and the phase advances by one taking. */
    method PriseDe(actif: Joueur, ghost i: nat, ghost e0: map<Joueur, Emplacements>, ghost m0: seq<seq<Carte>>,
                   ghost source: map<Joueur, Joueur>, ghost pris: map<Joueur, Carte>, ghost preneur: map<Joueur, Joueur>)
      returns (proprietaire: Joueur, ghost source': map<Joueur, Joueur>, ghost pris': map<Joueur, Carte>,
               ghost preneur': map<Joueur, Joueur>)
      requires SansDoublon(joueurs) && JestsDistincts(joueurs) && Valide() && offres.Keys == Ensemble(joueurs)
      requires i < |joueurs| && actif in offres && actif !in joueursAyantJoue
      requires Avancee(joueurs, e0, EtatOffres(), m0, MainsDe(joueurs), joueursAyantJoue, source, pris, preneur, i)
      requires Intactes(joueurs, joueursAyantJoue, preneur, actif)
      modifies this`joueursAyantJoue, Offres()`carteVisible, Offres()`carteCachee, JestsDe(joueurs)`cartes
      ensures proprietaire in offres
      ensures Avancee(joueurs, e0, EtatOffres(), m0, MainsDe(joueurs), joueursAyantJoue, source', pris', preneur', i + 1)
      ensures Intactes(joueurs, joueursAyantJoue, preneur',
                       if proprietaire in joueursAyantJoue then null else proprietaire)
    {
      ghost var joue, e, m := joueursAyantJoue, EtatOffres(), MainsDe(joueurs);
      assert Avancee(joueurs, e0, e, m0, m, joue, source, pris, preneur, i) && Intactes(joueurs, joue, preneur, actif);
      OffreCompleteRestante(joueurs, e0, e, joue, source, pris, preneur, i);
      ghost var q: Joueur :| q in e && e[q].Complet();
      assert q == actif || Ailleurs(actif) by {
        assert offres[q].EstComplete();
      }
      var carte;
      proprietaire, carte := Prendre(actif);
      PriseEtape(joueurs, e0, e, m0, m, joue, source, pris, preneur, i, actif, proprietaire, carte,
                 EtatOffres(), MainsDe(joueurs), joueursAyantJoue);
      source', pris', preneur' := source[actif := proprietaire], pris[actif := carte], preneur[proprietaire := actif];
      assert Intactes(joueurs, joueursAyantJoue, preneur', if proprietaire in joueursAyantJoue then null else proprietaire);
    }

    /** `determinerJoueurSuivant` during the taking phase: it always finds a
        player that has not played yet, and every other such player still
        has an untouched offer. */
    method Suivant(proprietaire: Joueur, ghost i: nat, ghost e0: map<Joueur, Emplacements>,
                   ghost source: map<Joueur, Joueur>, ghost pris: map<Joueur, Carte>, ghost preneur: map<Joueur, Joueur>)
      returns (suivant: Joueur?)
      requires i < |joueurs| && proprietaire in offres
      requires Compte(joueurs, e0, joueursAyantJoue, source, preneur, i) && Raids(e0, EtatOffres(), source, pris, preneur)
      requires Intactes(joueurs, joueursAyantJoue, preneur, if proprietaire in joueursAyantJoue then null else proprietaire)
      ensures suivant != null && suivant in offres && suivant !in joueursAyantJoue
      ensures Intactes(joueurs, joueursAyantJoue, preneur, suivant)
      ensures EtatOffres() == old(EtatOffres()) && MainsDe(joueurs) == old(MainsDe(joueurs))
    {
      ghost var e, m := EtatOffres(), MainsDe(joueurs);
      suivant := DeterminerJoueurSuivant(proprietaire);
      assert EtatOffres() == e && MainsDe(joueurs) == m;
      if proprietaire in joueursAyantJoue {
        SuivantTrouve(joueurs, e0, e, joueursAyantJoue, source, pris, preneur, i);
      }
    }

    /** One pass of the loop of `executerPrisesCartes` up to the choice of
        the next player: `actif` picks one of the offers `getOffresDisponibles`
        returns and one card of it, the card leaves the offer for the Jest of
        `actif`, and `actif` is marked as having played.  A complete offer
        must exist, which the taking phase guarantees. */
    method Prendre(actif: Joueur) returns (proprietaire: Joueur, carte: Carte)
      requires Valide() && actif in offres
      requires Ailleurs(actif) || offres[actif].EstComplete()
      modifies this`joueursAyantJoue, Offres()`carteVisible, Offres()`carteCachee, actif.jest`cartes
      ensures joueursAyantJoue == old(joueursAyantJoue) + {actif}
      ensures proprietaire in old(EtatOffres()) && old(EtatOffres())[proprietaire].Complet()
      ensures old(EtatOffres())[proprietaire].Tient(carte)
      ensures old(Ailleurs(actif)) ==> proprietaire != actif
      ensures EtatOffres() == old(EtatOffres())[proprietaire := old(EtatOffres())[proprietaire].Sans(carte)]
      ensures actif.jest.cartes == old(actif.jest.cartes) + [carte]
      ensures actif in Ensemble(joueurs) && JestsDistincts(joueurs) ==>
                MainsDe(joueurs) == Ajoute(joueurs, old(MainsDe(joueurs)), actif, carte)
    {
      ghost var etats0, m0 := EtatOffres(), MainsDe(joueurs);
      var offre;
      offre, carte := Choisir(actif);
      proprietaire := offre.proprietaire;
      assert etats0[proprietaire] == offre.Etat();
      Retirer(offre, carte);
      ghost var etats1 := EtatOffres();
      assert etats1 == etats0[proprietaire := etats0[proprietaire].Sans(carte)];
      assert MainsDe(joueurs) == m0;
      DonnerCarte(joueurs, actif, carte, Offres());
      assert forall p | p in offres :: EtatOffres()[p] == etats1[p];
      assert EtatOffres() == etats1;
      ghost var m2 := MainsDe(joueurs);
      Marquer(actif);
      assert MainsDe(joueurs) == m2 && EtatOffres() == etats1;
    }

    /** `joueursAyantJoue.add(actif)`: the offers and the Jests stay as they are. */
    method Marquer(actif: Joueur)
      modifies this`joueursAyantJoue
      ensures joueursAyantJoue == old(joueursAyantJoue) + {actif}
      ensures EtatOffres() == old(EtatOffres()) && MainsDe(joueurs) == old(MainsDe(joueurs))
      ensures actif.jest.cartes == old(actif.jest.cartes)
    {
      joueursAyantJoue := joueursAyantJoue + {actif};
    }

    /** `offreChoisie.retirerCarte(carteChoisie)`, seen on all the offers:
        only the chosen offer changes. */
    method Retirer(offre: Offre, carte: Carte)
      requires Valide() && offre.proprietaire in offres && offres[offre.proprietaire] == offre
      modifies offre`carteVisible, offre`carteCachee
      ensures EtatOffres() == old(EtatOffres())[offre.proprietaire := old(offre.Etat()).Sans(carte)]
      ensures MainsDe(joueurs) == old(MainsDe(joueurs))
    {
      ghost var etats0 := EtatOffres();
      var _ := offre.RetirerCarte(carte);
      forall q | q in offres && q != offre.proprietaire
        ensures EtatOffres()[q] == etats0[q]
      {
        assert offres[q] != offre;
      }
    }

    /** The two choices of `actif`: an offer among those `getOffresDisponibles`
        returns, then one of its cards. */
    method Choisir(actif: Joueur) returns (offre: Offre, carte: Carte)
      requires Valide() && actif in offres
      requires Ailleurs(actif) || offres[actif].EstComplete()
      ensures offre.proprietaire in offres && offres[offre.proprietaire] == offre
      ensures offre.EstComplete() && offre.Etat().Tient(carte)
      ensures Ailleurs(actif) ==> offre.proprietaire != actif
    {
      var disponibles := GetOffresDisponibles(actif);
      if Ailleurs(actif) {
        var q :| q in offres && q != actif && offres[q].EstComplete();
        assert offres[q] in disponibles;
      } else {
        assert disponibles == [offres[actif]];
      }
      assert disponibles[0] in disponibles;
      offre :| offre in disponibles;
      assert offre.Etat().Tient(offre.carteVisible);
      carte :| offre.Etat().Tient(carte);
    }

    /** Some complete offer belongs to another player than `joueur`. */
    ghost predicate Ailleurs(joueur: Joueur)
      reads this`offres, Offres()`carteVisible, Offres()`carteCachee
    {
      exists p | p in offres && p != joueur :: offres[p].EstComplete()
    }

    /** `getOffresDisponibles(joueur)`: the complete offers of the other
        players; when there is none, the player's own offer if it is
        complete.  The player must have an offer. */
    method GetOffresDisponibles(joueur: Joueur) returns (disponibles: seq<Offre>)
      requires Valide() && joueur in offres
      ensures forall i | 0 <= i < |disponibles| ::
                disponibles[i].proprietaire in offres
                && offres[disponibles[i].proprietaire] == disponibles[i]
                && disponibles[i].EstComplete()
      ensures Ailleurs(joueur) ==>
                (forall p | p in offres && p != joueur && offres[p].EstComplete() :: offres[p] in disponibles)
                && forall i | 0 <= i < |disponibles| :: disponibles[i].proprietaire != joueur
      ensures !Ailleurs(joueur) ==>
                disponibles == if offres[joueur].EstComplete() then [offres[joueur]] else []
    {
      EnumerationExiste(offres.Keys);
      var ordre: seq<Joueur> :| Enumere(ordre, offres.Keys);
      disponibles := [];
      for k := 0 to |ordre|
        invariant forall i | 0 <= i < |disponibles| ::
                    disponibles[i].proprietaire in offres
                    && offres[disponibles[i].proprietaire] == disponibles[i]
                    && disponibles[i].EstComplete() && disponibles[i].proprietaire != joueur
        invariant forall j | 0 <= j < k :: ordre[j] != joueur && offres[ordre[j]].EstComplete() ==>
                    offres[ordre[j]] in disponibles
      {
        assert ordre[k] in Ensemble(ordre);
        var offre := offres[ordre[k]];
        if offre.EstComplete() && offre.proprietaire != joueur {
          disponibles := disponibles + [offre];
        }
      }
      forall p | p in offres && p != joueur && offres[p].EstComplete()
        ensures offres[p] in disponibles
      {
        assert p in Ensemble(ordre);
      }
      if |disponibles| > 0 {
        var q := disponibles[0].proprietaire;
        assert q in offres && q != joueur && offres[q].EstComplete();
      }
      if disponibles == [] {
        var offrePropre := offres[joueur];
        if offrePropre.EstComplete() {
          disponibles := disponibles + [offrePropre];
        }
      }
    }

    /** `determinerJoueurSuivant(proprietaireOffre)`: the raided owner if
        they have not played yet; otherwise the result of the highest-card
        scan, in list order, over the visible cards of the players that have
        not played and have an offer (see `SuivantProprietes`). */
    method DeterminerJoueurSuivant(proprietaireOffre: Joueur) returns (suivant: Joueur?)
      ensures proprietaireOffre !in joueursAyantJoue ==> suivant == proprietaireOffre
      ensures proprietaireOffre in joueursAyantJoue ==>
                suivant == Designe(joueurs, PlusForte(VisiblesRestants(joueurs, EtatOffres(), joueursAyantJoue)).gagnant)
    {
      if proprietaireOffre !in joueursAyantJoue {
        return proprietaireOffre;
      }
      ghost var cs := VisiblesRestants(joueurs, EtatOffres(), joueursAyantJoue);
      suivant := null;
      var carteMax: Carte? := null;
      for k := 0 to |joueurs|
        invariant carteMax == PlusForte(cs[..k]).carte
        invariant suivant == Designe(joueurs, PlusForte(cs[..k]).gagnant)
      {
        PlusForteEtape(cs, k);
        var j := joueurs[k];
        if j !in joueursAyantJoue {
          if j in offres && offres[j].carteVisible != null {
            var carteVisible := offres[j].carteVisible;
            assert cs[k] == carteVisible;
            if carteMax == null || carteVisible.ComparerForce(carteMax) > 0 {
              carteMax := carteVisible;
              suivant := j;
            }
          } else {
            assert cs[k] == null;
          }
        } else {
          assert cs[k] == null;
        }
      }
      assert cs[..|joueurs|] == cs;
      assert cs == VisiblesRestants(joueurs, EtatOffres(), joueursAyantJoue);
    }

    /** `getCartesResiduelles`: the cards left in the offers, offer after
        offer in the map's order, the visible one first. */
    method GetCartesResiduelles() returns (residuelles: seq<Carte>, ghost ordre: seq<Joueur>)
      ensures Enumere(ordre, offres.Keys)
      ensures residuelles == Restes(ordre, EtatOffres())
    {
      EnumerationExiste(offres.Keys);
      var cles: seq<Joueur> :| Enumere(cles, offres.Keys);
      ordre := cles;
      residuelles := [];
      for k := 0 to |cles|
        invariant residuelles == Restes(cles[..k], EtatOffres())
      {
        assert cles[k] in Ensemble(cles);
        assert cles[..k + 1][..k] == cles[..k];
        residuelles := residuelles + offres[cles[k]].CartesRestantes();
      }
      assert cles[..|cles|] == cles;
    }
  }
}
