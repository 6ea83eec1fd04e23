# Jest: a verified model of the game engine

Jest is a card game for three or four players. This project models its game
engine (the Java package `jest.modele`) in Dafny and proves what the engine
promises.

**Cards.** The deck holds the Aces, 2, 3 and 4 of each colour and a Joker.
- A card's strength orders by face value, then by colour.
- A card's effective value can depend on the Jest it sits in:
  - an Ace is worth 5 when it is alone in its colour;
  - the Joker is worth 4 when the Jest holds no heart;
  - the magic cards of the extension sum the spades or the diamonds.

**A round.**
1. Each player is dealt two cards and makes an offer: one card visible, one hidden.
2. Starting with the strongest visible card, each player takes one card from a complete offer.
3. The owner of the offer just raided plays next, if they have not played yet.
4. The card left in each offer goes into the next round's pool.

**End of the game.** When the draw pile is empty:
- each player collects a residual card;
- the Jests are revealed;
- base scores are computed by five visitors (spades, clubs, diamonds, hearts with the Joker, black pairs);
- the trophies, seeded from the deck at the start, go to the players their conditions designate;
- the final score adds each trophy's face value;
- the winner is the highest score, with the highest card as tie-break.

**How the Java becomes Dafny.**
- Objects that the Java code updates in place are Dafny classes with the same fields.
- Card kinds (`CarteNormale`, `As`, `Joker`, `Trophee`, the four magic cards) are one datatype `Genre`, held by a `Carte` object whose only mutable field is its visibility.
- The six visitor classes are one class `Visiteur` whose constant `regle` names the rule.
- Every loop of the source is a Dafny loop, proved against a specification function.
- The closed forms of the scoring, the winner rules and the round invariants are lemmas about those functions.
- Exceptions the code throws on purpose (`IllegalArgumentException`, `IllegalStateException`, and the `IndexOutOfBoundsException` or `NullPointerException` of a known input) are error results (`Resultat`, `Statut`).
- Randomness and player decisions are arbitrary choices, so every property holds for every shuffle, random draw and choice.

The modules follow the packages: `Couleurs`, `Cartes`, `Score`, `Calculateur`, `Paquets`, `Pioches`, `Offres`, `Jests`, `Joueurs`, `Conditions`, `Gestionnaire`, `Strategies`, `Tours`, `Parties`, `Extensions`, `Variantes`. A last module, `Constats`, states two defects of the source (see Findings). The rest of the model keeps the behaviour as written.

Quirks of the source that the model keeps:
- `comparerForce` breaks a face-value tie by declaration order of the colours. That makes PIQUE the weakest colour in a tie, the reverse of `getForce`.
- The Joker is a heart, so it counts itself in the heart count.
- The deck loop also runs over SPECIALE, so the deck has 21 cards.
- A trophy adds its flat face value, and visiting a trophy does nothing.
- The magic-card visitor is never registered in the calculator.
- The misnamed calls are resolved as follows:
  - `getCartePlusHaute` in the highest-card rule is `getCartePlusHauteCouleur`.
  - The one-argument `accepterVisiteur` is the two-argument one.

## Model

| member | source | states |
|---|---|---|
| Couleurs.Force | src/main/java/jest/modele/cartes/Couleur.java:8-12 | the force is 4 minus the declaration index: PIQUE 4, TREFLE 3, CARREAU 2, COEUR 1, SPECIALE 0 |
| Couleurs.ComparerEntiers | src/main/java/jest/modele/cartes/Couleur.java:48-50 | `Integer.compare`: -1, 0 or 1, with the sign of x - y |
| Couleurs.CompareForce | src/main/java/jest/modele/cartes/Couleur.java:48-50 | positive iff the first force is larger, negative iff smaller, zero iff the colours are equal |
| Couleurs.CompareTo | src/main/java/jest/modele/cartes/Carte.java:109 | enum `compareTo`: negative iff the first colour is declared earlier, zero iff equal |
| Couleurs.ForcesDistinctes | src/main/java/jest/modele/cartes/Couleur.java:8-12 | two colours with the same force are the same colour |
| Couleurs.CompareForceAntisymetrique | src/main/java/jest/modele/cartes/Couleur.java:48-50 | swapping the arguments negates `compareForce` |
| Couleurs.CompareForceTransitive | src/main/java/jest/modele/cartes/Couleur.java:48-50 | `compareForce` is transitive |
| Couleurs.ForceInverseDeclaration | src/main/java/jest/modele/cartes/Couleur.java:8-12 | for distinct colours, `compareForce` and declaration order have opposite signs |
| Cartes.Carte.constructor | src/main/java/jest/modele/cartes/Carte.java:21-25 | a new card has the given kind and is face down |
| Cartes.Carte.EstJoker | src/main/java/jest/modele/cartes/Joker.java:17-28 | only the Joker is a Joker, and it is a heart of face value 0 |
| Cartes.Carte.Reveler | src/main/java/jest/modele/cartes/Carte.java:84-86 | the card is visible; only its visibility changes |
| Cartes.Carte.Cacher | src/main/java/jest/modele/cartes/Carte.java:91-93 | the card is hidden; only its visibility changes |
| Cartes.Carte.ComparerForce | src/main/java/jest/modele/cartes/Carte.java:102-110 | a higher face value always wins; equal faces compare by colour declaration order; zero iff same face and colour; the sign is that of the rank 5·face + declaration index |
| Cartes.ComparerForceAntisymetrique | src/main/java/jest/modele/cartes/Carte.java:102-110 | a card compares equal to itself; swapping the arguments negates the result |
| Cartes.ComparerForceTransitive | src/main/java/jest/modele/cartes/Carte.java:102-110 | `comparerForce` is transitive |
| Cartes.EgaliteFaceInverseForce | src/main/java/jest/modele/cartes/Carte.java:109 | on equal faces and distinct colours, a card wins iff its colour has the smaller force (PIQUE is weakest) |
| Cartes.NouvelleCarteNormale | src/main/java/jest/modele/cartes/CarteNormale.java:17-22 | fails with IllegalArgumentException iff the value is outside 1..4; otherwise a fresh hidden card of that colour and value |
| Cartes.Compter | src/main/java/jest/modele/joueurs/Jest.java:101-124 | a count lies between 0 and the number of cards, and is 0 iff no card matches |
| Cartes.IndicePlusHaute | src/main/java/jest/modele/joueurs/Jest.java:131-171 | none iff no card passes the filter; otherwise a passing card that no passing card outranks, strictly above every earlier passing card |
| Cartes.IndicePlusBasse | src/main/java/jest/modele/joueurs/Jest.java:177-187 | none iff no card of the colour; otherwise a card of the colour that no card of the colour underranks, strictly below every earlier one |
| Cartes.PlusHauteAjout | src/main/java/jest/modele/joueurs/Jest.java:131-141 | one step of the highest-card scan: a new passing card replaces the kept one iff nothing is kept or it is strictly stronger |
| Cartes.PlusBasseAjout | src/main/java/jest/modele/joueurs/Jest.java:177-187 | one step of the lowest-card scan, with a strictly weaker card replacing the kept one |
| Cartes.ValeurFaciale | src/main/java/jest/modele/cartes/CarteNormale.java:41-43 | a normal card or a trophy is worth its face value in every Jest |
| Cartes.ValeurAs | src/main/java/jest/modele/cartes/As.java:16-29 | an Ace has face value 1 and is worth 5 iff the Jest holds exactly one card of its colour, else 1 |
| Cartes.AsPerdSonBonus | src/main/java/jest/modele/cartes/As.java:26-29 | an Ace worth 5 is worth 1 once a second card of its colour joins the Jest |
| Cartes.JokerCompteSoiMeme | src/main/java/jest/modele/cartes/Joker.java:40-47 | the Joker is worth 4 iff the Jest has no heart; in its own Jest it is worth 0 |
| Cartes.ValeurMagiqueAgregee | src/main/java/jest/modele/extensions/ExtensionMagique.java:39-85 | the Multiplicateur is worth the sum of the effective values of the Jest's spades, the Bouclier that of its diamonds |
| Score.Visiteur.constructor | src/main/java/jest/modele/score/VisiteurPairesNoires.java:54-57 | a new visitor has the given rule, partial 0 and no counted value |
| Score.Visiteur.Reset | src/main/java/jest/modele/score/VisiteurPairesNoires.java:54-57 | after `reset` the partial is 0 and the set of counted values is empty |
| Score.Visiteur.VisiterCarteNormale | src/main/java/jest/modele/score/VisiteurCoeurs.java:22-40 | the state becomes one step of the visitor's rule on a normal card (or an Ace) |
| Score.Visiteur.VisiterJoker | src/main/java/jest/modele/score/VisiteurCoeurs.java:43-51 | the state becomes one Joker step of the visitor's rule |
| Score.Visiteur.VisiterCarteExtension | src/main/java/jest/modele/score/VisiteurExtensionMagique.java:24-29 | the state becomes one extension step: the magic visitor adds the value of a SPECIALE card that is not the Joker, every other visitor does nothing |
| Score.Accepter | src/main/java/jest/modele/cartes/As.java:37-46 | `accepter` dispatches each card kind to its one visit method, a trophy to none |
| Score.TropheeNeutre | src/main/java/jest/modele/cartes/Trophee.java:66-69 | visiting a trophy leaves every visitor's state unchanged |
| Score.JokerVisite | src/main/java/jest/modele/cartes/Joker.java:55-57 | visiting the Joker adds 4 for the heart visitor iff the Jest has no heart, and nothing otherwise |
| Score.PasseAdditive | src/main/java/jest/modele/score/VisiteurPiques.java:18-22 | after a full pass, the spade and club partials are the sums of their colour's values, the diamond partial minus its sum, the magic partial the sum of the magic values |
| Score.PasseCoeursPartielle | src/main/java/jest/modele/score/VisiteurCoeurs.java:22-51 | after visiting any cards, the heart partial is the Joker coefficient times the hearts' values, plus 4 per Joker when the Jest has no heart |
| Score.PasseCoeurs | src/main/java/jest/modele/score/VisiteurCoeurs.java:43-51 | over a whole Jest the heart partial is the coefficient times the hearts' values: the Joker's +4 never applies |
| Score.PasPairesNoires | src/main/java/jest/modele/score/VisiteurPairesNoires.java:22-41 | one step adds 2 and records the value iff the card completes a black pair whose value is not yet counted |
| Score.PassePairesNoires | src/main/java/jest/modele/score/VisiteurPairesNoires.java:32-40 | after a full pass the partial is twice the number of black-pair values, whatever the order of the cards |
| Score.MultiplicateurVautPiques | src/main/java/jest/modele/extensions/ExtensionMagique.java:39-48 | in a Jest without trophies, the Multiplicateur is worth the spade visitor's partial |
| Score.BouclierAnnuleCarreaux | src/main/java/jest/modele/extensions/ExtensionMagique.java:76-85 | in a Jest without trophies, the Bouclier cancels the diamond visitor's partial |
| Score.CarreauxNegatifs | src/main/java/jest/modele/score/VisiteurCarreaux.java:18-22 | over a Jest of valid cards the diamond partial is at most 0 |
| Calculateur.CalculateurScore.constructor | src/main/java/jest/modele/score/CalculateurScore.java:23-30 | five distinct fresh visitors, in the order spades, clubs, diamonds, hearts, black pairs |
| Calculateur.CalculateurScore.CalculerScoreAvecTrophees | src/main/java/jest/modele/score/CalculateurScore.java:37-39 | `calculerScore(jest)` is the score with the trophies |
| Calculateur.CalculateurScore.CalculerScore | src/main/java/jest/modele/score/CalculateurScore.java:47-70 | the score is a function of the Jest's cards and trophies only, whatever the visitors held before |
| Calculateur.CalculateurScore.AppliquerEffetsTrophees | src/main/java/jest/modele/score/CalculateurScore.java:78-84 | adds the face value of every trophy |
| Calculateur.ScoreFormeClose | src/main/java/jest/modele/score/CalculateurScore.java:47-70 | the base score in closed form: spades plus clubs minus diamonds, plus the heart coefficient times the hearts, plus 2 per black-pair value |
| Calculateur.ScoreBaseDeplie | src/main/java/jest/modele/score/CalculateurScore.java:48-62 | the base score is the sum of the five partials |
| Calculateur.TropheeAjouteSaValeur | src/main/java/jest/modele/score/CalculateurScore.java:78-84 | a trophy raises the score by exactly its face value, whatever its condition |
| Calculateur.SansTropheesScoreBase | src/main/java/jest/modele/score/CalculateurScore.java:47-70 | without the trophies the score is the base score |
| Calculateur.PaireNoireDeDeux | src/main/java/jest/modele/score/VisiteurPairesNoires.java:32-40 | the 2 of spades and the 2 of clubs score 2 + 2 + 2 = 6 |
| Paquets.GenresDe | src/main/java/jest/modele/cartes/Paquet.java:33-41 | the colour loop adds four kinds per colour |
| Paquets.GenresDeContenu | src/main/java/jest/modele/cartes/Paquet.java:33-41 | the loop produces exactly the Ace, 2, 3 and 4 of each listed colour |
| Paquets.GenresDeDistincts | src/main/java/jest/modele/cartes/Paquet.java:33-41 | over distinct colours, no kind is produced twice |
| Paquets.PaquetInitial | src/main/java/jest/modele/cartes/Paquet.java:29-50 | the initial deck has 21 distinct kinds: the Ace, 2, 3, 4 of every colour (SPECIALE included) and the Joker |
| Paquets.Paquet.constructor | src/main/java/jest/modele/cartes/Paquet.java:20-23 | a new deck is empty |
| Paquets.Paquet.Initialiser | src/main/java/jest/modele/cartes/Paquet.java:29-50 | the deck holds 21 distinct fresh hidden cards of those kinds, in loop order, whatever the extension flag |
| Paquets.Paquet.Melanger | src/main/java/jest/modele/cartes/Paquet.java:55-57 | the shuffle keeps the multiset of cards |
| Paquets.Paquet.Distribuer | src/main/java/jest/modele/cartes/Paquet.java:65-75 | IllegalStateException, deck unchanged, iff more cards are asked than held; otherwise the first n cards, removed from the front |
| Paquets.Paquet.EstVide | src/main/java/jest/modele/cartes/Paquet.java:81-91 | empty iff the size is 0 |
| Paquets.Paquet.GetCartes | src/main/java/jest/modele/cartes/Paquet.java:97-99 | a copy of the cards, as a value |
| Paquets.Paquet.AjouterCartes | src/main/java/jest/modele/cartes/Paquet.java:105-107 | the cards are appended in order |
| Pioches.EmpilerPuisPiocher | src/main/java/jest/modele/jeu/Pioche.java:44-80 | drawing as many cards as were just pushed gives them back top first (reversed) and leaves the pile as it was |
| Pioches.Pioche.constructor | src/main/java/jest/modele/jeu/Pioche.java:18-24 | the pile holds the given cards in order, the last on top; a null list gives an empty pile |
| Pioches.Pioche.Piocher | src/main/java/jest/modele/jeu/Pioche.java:31-36 | IllegalStateException on an empty pile; otherwise the top card, removed |
| Pioches.Pioche.PiocherPlusieurs | src/main/java/jest/modele/jeu/Pioche.java:44-54 | IllegalStateException, pile unchanged, iff n exceeds the size; otherwise the top n cards, top first, and the pile loses exactly them |
| Pioches.Pioche.EstVide | src/main/java/jest/modele/jeu/Pioche.java:60-70 | empty iff the size is 0 |
| Pioches.Pioche.AjouterCartes | src/main/java/jest/modele/jeu/Pioche.java:76-80 | the cards are pushed in order; null changes nothing |
| Pioches.Pioche.Melanger | src/main/java/jest/modele/jeu/Pioche.java:85-90 | the shuffle keeps the size and the multiset of cards |
| Offres.Emplacements.Cartes | src/main/java/jest/modele/jeu/Offre.java:106-122 | the remaining cards, visible first, at most 2; two iff complete, one iff exactly one slot is filled |
| Offres.SansRetire | src/main/java/jest/modele/jeu/Offre.java:57-68 | taking a held card removes exactly that card from exactly one slot, and from a complete offer leaves one card; taking an absent card changes nothing |
| Offres.Offre.constructor | src/main/java/jest/modele/jeu/Offre.java:24-28 | a new offer has the given owner and two empty slots |
| Offres.Offre.AjouterCarte | src/main/java/jest/modele/jeu/Offre.java:35-49 | IllegalStateException, nothing changed, iff the target slot is full; otherwise the card is stored, revealed in the visible slot or hidden in the hidden one, the other slot untouched |
| Offres.Offre.RetirerCarte | src/main/java/jest/modele/jeu/Offre.java:57-68 | the card, matched by identity, is removed from the slot holding it and returned, the other slot untouched; IllegalArgumentException, nothing changed, when neither slot holds it |
| Offres.Offre.EstComplete | src/main/java/jest/modele/jeu/Offre.java:90-92 | complete iff both slots are filled |
| Offres.Offre.CartesRestantes | src/main/java/jest/modele/jeu/Offre.java:106-111 | the slots' cards, visible first |
| Offres.Offre.GetNombreCartesRestantes | src/main/java/jest/modele/jeu/Offre.java:117-122 | the number of remaining cards equals the length of the list of remaining cards |
| Jests.AccepterTrophee | src/main/java/jest/modele/cartes/Trophee.java:66-69 | a trophy's `accepter` leaves the visitor unchanged |
| Jests.Jest.constructor | src/main/java/jest/modele/joueurs/Jest.java:24-27 | a new Jest has no card and no trophy |
| Jests.Jest.AjouterCarte | src/main/java/jest/modele/joueurs/Jest.java:33-35 | the card is appended; the trophies are unchanged |
| Jests.Jest.AjouterTrophee | src/main/java/jest/modele/joueurs/Jest.java:41-43 | the trophy is appended; the cards are unchanged |
| Jests.Jest.ContientJoker | src/main/java/jest/modele/joueurs/Jest.java:49-56 | true iff some card is the Joker |
| Jests.Jest.ContientPaireNoire | src/main/java/jest/modele/joueurs/Jest.java:64-78 | true iff the Jest holds a spade and a club of the value |
| Jests.Jest.CompterCartesCouleur | src/main/java/jest/modele/joueurs/Jest.java:101-109 | the number of cards of the colour |
| Jests.Jest.CompterCartesValeur | src/main/java/jest/modele/joueurs/Jest.java:116-124 | the number of cards of the face value |
| Jests.Jest.CartePlusHaute | src/main/java/jest/modele/joueurs/Jest.java:131-171 | the loop's result is the highest card that passes the filter (see `Cartes.IndicePlusHaute`) |
| Jests.Jest.GetCartePlusHauteCouleur | src/main/java/jest/modele/joueurs/Jest.java:131-141 | the highest card of the colour, or null |
| Jests.Jest.GetCartePlusHauteValeur | src/main/java/jest/modele/joueurs/Jest.java:147-161 | the highest card of the face value, or null |
| Jests.Jest.GetCartePlusHauteGlobale | src/main/java/jest/modele/joueurs/Jest.java:163-171 | the highest card, or null for an empty Jest |
| Jests.Jest.GetCartePlusBasse | src/main/java/jest/modele/joueurs/Jest.java:177-187 | the lowest card of the colour, or null |
| Jests.Jest.AccepterVisiteur | src/main/java/jest/modele/joueurs/Jest.java:194-206 | the visitor is reset and visits every card in order; the result and the new state are the full pass over the cards (trophies change nothing, with or without the flag) |
| Jests.Jest.RevelerCartes | src/main/java/jest/modele/joueurs/Jest.java:210-214 | every card of the Jest is visible; only visibility changes |
| Joueurs.Joueur.constructor | src/main/java/jest/modele/joueurs/Joueur.java:24-28 | a new player has the given name, a fresh empty Jest and score 0 |
| Joueurs.Joueur.SetScore | src/main/java/jest/modele/joueurs/Joueur.java:58-68 | after `setScore(s)`, `getScore()` is s |
| Joueurs.Joueur.AjouterCarteAuJest | src/main/java/jest/modele/joueurs/Joueur.java:50-52 | the card is appended to the player's Jest; the trophies are unchanged |
| Conditions.CompterValeurPlusHaute | src/main/java/jest/modele/cartes/ConditionTrophee.java:99-112 | a player holds a card of the value iff their highest card of the value exists |
| Conditions.PlusHauteGlobale | src/main/java/jest/modele/cartes/ConditionTrophee.java:151-172 | a Jest has a highest card iff it is not empty |
| Conditions.Majorite | src/main/java/jest/modele/cartes/ConditionTrophee.java:79-97 | the majority scan designates a player of the list, and someone whenever the best count is positive |
| Conditions.MajoriteEtape | src/main/java/jest/modele/cartes/ConditionTrophee.java:79-112 | one step of the scan: a larger count takes the lead; an equal positive count takes it only with a strictly stronger highest card of the value |
| Conditions.MajoriteMaximale | src/main/java/jest/modele/cartes/ConditionTrophee.java:79-97 | nobody wins iff every count is 0; the winner's count is the maximum |
| Conditions.MajoriteDepartage | src/main/java/jest/modele/cartes/ConditionTrophee.java:99-112 | among players with the maximal count, the winner's highest card of the value is not outranked, and beats every earlier one strictly |
| Conditions.MajoriteValeurGagnant | src/main/java/jest/modele/cartes/ConditionTrophee.java:79-112 | the majority rule over the Jests: null iff nobody holds the value; otherwise a player with the most cards of the value and, among them, the strongest highest card of the value, the earliest on equal strength |
| Conditions.PlusForte | src/main/java/jest/modele/cartes/ConditionTrophee.java:114-126 | the highest-card scan designates a player of the list |
| Conditions.PlusFaible | src/main/java/jest/modele/cartes/ConditionTrophee.java:128-140 | the lowest-card scan designates a player of the list |
| Conditions.PlusForteProprietes | src/main/java/jest/modele/cartes/ConditionTrophee.java:114-126 | nobody iff no candidate card; the winner's card outranks or equals every candidate card and strictly beats every earlier one |
| Conditions.PlusFaibleProprietes | src/main/java/jest/modele/cartes/ConditionTrophee.java:128-140 | symmetric: the winner's card is the lowest, strictly below every earlier one |
| Conditions.PlusForteEtape | src/main/java/jest/modele/cartes/ConditionTrophee.java:114-126 | one step: a card takes the lead iff none is kept or it is strictly stronger |
| Conditions.PlusFaibleEtape | src/main/java/jest/modele/cartes/ConditionTrophee.java:128-140 | one step: a card takes the lead iff none is kept or it is strictly weaker |
| Conditions.AucuneCarteNeBatLaPlusHaute | src/main/java/jest/modele/cartes/ConditionTrophee.java:114-126 | null iff nobody holds the colour; otherwise no card of the colour in any Jest beats the winner's highest card of the colour |
| Conditions.AucuneCarteSousLaPlusBasse | src/main/java/jest/modele/cartes/ConditionTrophee.java:128-140 | null iff nobody holds the colour; otherwise no card of the colour in any Jest is below the winner's lowest card of the colour |
| Conditions.PremierJoker | src/main/java/jest/modele/cartes/ConditionTrophee.java:142-149 | the first player in list order whose Jest holds the Joker, or none iff nobody does |
| Conditions.MeilleurScore | src/main/java/jest/modele/cartes/ConditionTrophee.java:151-172 | the best-score scan designates a player of the list; it fails (NullPointerException) only on a tie at the running maximum, when either tied player's highest card is null or when no player is designated yet (a candidate scoring `Integer.MIN_VALUE` first) |
| Conditions.EtapeScore | src/main/java/jest/modele/cartes/ConditionTrophee.java:156-170 | one step of the best-score scan keeps the winner's position in range and fails only with the earlier failure or a null highest card |
| Conditions.MeilleurScoreEtape | src/main/java/jest/modele/cartes/ConditionTrophee.java:151-172 | the scan over one more player is one more step |
| Conditions.MeilleurScoreEchecDefinitif | src/main/java/jest/modele/cartes/ConditionTrophee.java:151-172 | once the scan has thrown, the whole evaluation throws |
| Conditions.MeilleurScoreMaximal | src/main/java/jest/modele/cartes/ConditionTrophee.java:151-172 | a completed scan designates a candidate with the maximal score; nobody only when every candidate scores below `Integer.MIN_VALUE` |
| Conditions.MeilleurScoreDepartage | src/main/java/jest/modele/cartes/ConditionTrophee.java:163-168 | any other candidate with the winning score has a highest card no stronger than the winner's, and strictly weaker when earlier |
| Conditions.MeilleurScoreSansErreur | src/main/java/jest/modele/cartes/ConditionTrophee.java:151-172 | with non-empty Jests and scores above `Integer.MIN_VALUE` the scan does not throw, and finds nobody iff there is no candidate |
| Conditions.MeilleurJest | src/main/java/jest/modele/cartes/ConditionTrophee.java:151-172 | the best-Jest rule designates a player of the list |
| Conditions.MeilleurJestGagnant | src/main/java/jest/modele/cartes/ConditionTrophee.java:151-172 | the best-Jest rule skips Joker holders when asked; the winner is a candidate with the maximal score, none iff every player is skipped |
| Conditions.Evalue | src/main/java/jest/modele/cartes/ConditionTrophee.java:42-77 | `evaluer` maps each of the fifteen conditions to its rule and designates a player of the list |
| Conditions.SeulMeilleurJestEchoue | src/main/java/jest/modele/cartes/ConditionTrophee.java:42-77 | only the two best-Jest conditions can throw |
| Conditions.BriserEgaliteMajorite | src/main/java/jest/modele/cartes/ConditionTrophee.java:99-112 | the second player wins the tie iff their highest card of the value exists and is strictly stronger than the first's (or the first has none) |
| Conditions.EvaluerMajorite | src/main/java/jest/modele/cartes/ConditionTrophee.java:79-97 | the loop returns the player the majority rule designates |
| Conditions.EvaluerCartePlusHaute | src/main/java/jest/modele/cartes/ConditionTrophee.java:114-126 | the loop returns the player the highest-card rule designates |
| Conditions.EvaluerCartePlusBasse | src/main/java/jest/modele/cartes/ConditionTrophee.java:128-140 | the loop returns the player the lowest-card rule designates |
| Conditions.EvaluerPossessionJoker | src/main/java/jest/modele/cartes/ConditionTrophee.java:142-149 | the loop returns the first Joker holder, or null |
| Conditions.EvaluerMeilleurScore | src/main/java/jest/modele/cartes/ConditionTrophee.java:151-172 | the loop returns the player the best-Jest rule designates, or its exception |
| Conditions.ParcourirScores | src/main/java/jest/modele/cartes/ConditionTrophee.java:155-170 | the loop stops at the first throw, and otherwise holds the scan's winner over all players |
| Conditions.ExaminerJoueur | src/main/java/jest/modele/cartes/ConditionTrophee.java:156-169 | one loop body is one step of the scan |
| Conditions.Evaluer | src/main/java/jest/modele/cartes/ConditionTrophee.java:42-77 | `evaluer` returns the player its condition designates, or its exception |
| Conditions.EvaluerCondition | src/main/java/jest/modele/cartes/Trophee.java:38-40 | `evaluerCondition` is the evaluation of the trophy's own condition |
| Gestionnaire.Vainqueur | src/main/java/jest/modele/utilitaires/GestionnaireScores.java:24-45 | the winner scan designates a player of the list |
| Gestionnaire.EtapeVainqueur | src/main/java/jest/modele/utilitaires/GestionnaireScores.java:30-43 | one step keeps the winner's position in range |
| Gestionnaire.VainqueurEtape | src/main/java/jest/modele/utilitaires/GestionnaireScores.java:24-45 | the scan over one more player is one more step |
| Gestionnaire.VainqueurMaximal | src/main/java/jest/modele/utilitaires/GestionnaireScores.java:24-45 | nobody iff every score is at most `Integer.MIN_VALUE`; the winner's score is the maximum |
| Gestionnaire.VainqueurDepartage | src/main/java/jest/modele/utilitaires/GestionnaireScores.java:32-41 | an earlier player with the winning score has no highest card or a strictly weaker one; a later one has none or one no stronger |
| Gestionnaire.GagnantPartie | src/main/java/jest/modele/utilitaires/GestionnaireScores.java:24-45 | `determinerGagnant` over the Jests and stored scores designates a player of the list |
| Gestionnaire.GagnantPartieMaximal | src/main/java/jest/modele/utilitaires/GestionnaireScores.java:24-45 | null iff there is no player; otherwise the winner has the maximal score, and every earlier player with that score has an empty Jest or a strictly weaker highest card |
| Gestionnaire.DeterminerGagnant | src/main/java/jest/modele/utilitaires/GestionnaireScores.java:24-45 | the loop returns the player the scan designates |
| Gestionnaire.ExaminerScore | src/main/java/jest/modele/utilitaires/GestionnaireScores.java:30-43 | one loop body is one step of the scan |
| Gestionnaire.InsertionDecroissante | src/main/java/jest/modele/utilitaires/GestionnaireScores.java:53-57 | inserting a score after the larger-or-equal prefix keeps a non-increasing sequence non-increasing |
| Gestionnaire.ObtenirClassement | src/main/java/jest/modele/utilitaires/GestionnaireScores.java:53-57 | a permutation of the players with non-increasing scores; the input is a value and is not changed |
| Gestionnaire.Inserer | src/main/java/jest/modele/utilitaires/GestionnaireScores.java:53-57 | inserting a player into a ranking gives a ranking with that player added |
| Strategies.CacheGloutonne | src/main/java/jest/modele/joueurs/StrategieGloutonne.java:20-24 | the hidden card is a card of the hand; an empty hand is an error |
| Strategies.CacheGloutonneMinimale | src/main/java/jest/modele/joueurs/StrategieGloutonne.java:20-24 | the greedy hidden card has the minimal face value, the first among equals |
| Strategies.CibleGloutonne | src/main/java/jest/modele/joueurs/StrategieGloutonne.java:28-36 | the target is the first offer with the maximal visible face value; no offer is an error |
| Strategies.PriseGloutonne | src/main/java/jest/modele/joueurs/StrategieGloutonne.java:39-41 | the greedy player takes the visible card |
| Strategies.CacheDefensive | src/main/java/jest/modele/joueurs/StrategieDefensive.java:20-35 | the first diamond of the hand when there is one, else the first card of minimal face value; an empty hand is an error |
| Strategies.CibleDefensive | src/main/java/jest/modele/joueurs/StrategieDefensive.java:38-52 | the first offer whose visible card is not a diamond, else the first with the minimal visible face value; no offer is an error |
| Strategies.PriseDefensive | src/main/java/jest/modele/joueurs/StrategieDefensive.java:55-62 | the hidden card iff the visible card is a diamond, else the visible card |
| Strategies.PrisesDansOffre | src/main/java/jest/modele/joueurs/StrategieDefensive.java:55-62 | from a complete offer both strategies take a card the offer holds |
| Tours.Distribution | src/main/java/jest/modele/jeu/Tour.java:66-73 | every hand has two cards |
| Tours.DistributionCles | src/main/java/jest/modele/jeu/Tour.java:66-73 | exactly the players of the list get a hand |
| Tours.DistributionMains | src/main/java/jest/modele/jeu/Tour.java:66-73 | with distinct players, player k gets pool cards 2k and 2k+1 |
| Tours.DistributionDansPool | src/main/java/jest/modele/jeu/Tour.java:66-73 | every dealt card comes from the pool |
| Tours.AutreComplete | src/main/java/jest/modele/jeu/Tour.java:88-97 | the hidden card and the other card of the hand make up the hand |
| Tours.RestesUnParOffre | src/main/java/jest/modele/jeu/Tour.java:226-232 | when each offer holds one card, the residue has one card per offer, the one it holds |
| Tours.SuivantProprietes | src/main/java/jest/modele/jeu/Tour.java:205-219 | the strongest remaining visible card belongs to a player who has not played and has a visible card, and no such player's visible card outranks it |
| Tours.OffreCompleteRestante | src/main/java/jest/modele/jeu/Tour.java:169-187 | while fewer takings than players are done, some offer is complete, so the available offers are never empty |
| Tours.SuivantTrouve | src/main/java/jest/modele/jeu/Tour.java:196-220 | while someone has not played, the next-player rule finds a player who has not played (never null) |
| Tours.RaidsFinis | src/main/java/jest/modele/jeu/Tour.java:133-159 | after n takings no two players raided the same offer, and each offer lost exactly one card and holds one |
| Tours.Conclusion | src/main/java/jest/modele/jeu/Tour.java:127-160 | after the phase every player has played exactly once, taking one card of a distinct offer into their Jest |
| Tours.Tour.constructor | src/main/java/jest/modele/jeu/Tour.java:25-32 | a round with its number, players and pile, no offer, no residue, nobody having played |
| Tours.Tour.SetCartesResiduelles | src/main/java/jest/modele/jeu/Tour.java:38-40 | the residue is replaced |
| Tours.Tour.DistribuerCartes | src/main/java/jest/modele/jeu/Tour.java:48-76 | IllegalStateException, pile unchanged, iff the pile cannot serve 2n (round 1) or n cards; otherwise the pile loses its top cards, the pool is the 2n top cards or a shuffle of the residue with n top cards, and the hands are the deal of the pool (IndexOutOfBoundsException when it is short) |
| Tours.Tour.Rassembler | src/main/java/jest/modele/jeu/Tour.java:52-64 | the pool: 2n cards from the pile in round 1, else the residue and n drawn cards, shuffled |
| Tours.Tour.Repartir | src/main/java/jest/modele/jeu/Tour.java:66-73 | the deal: two pool cards per player in list order; IndexOutOfBoundsException when the pool is short |
| Tours.Tour.CreerOffres | src/main/java/jest/modele/jeu/Tour.java:83-103 | one fresh distinct offer per player, owned by them, hiding a card of their hand and showing the other; other players' offers kept; when no card is in two hands, every offer's visible card is face up and its hidden card face down |
| Tours.Tour.CreerOffre | src/main/java/jest/modele/jeu/Tour.java:85-94 | a fresh offer of the player holding their two cards, the chosen one hidden and face down, the other visible and face up; earlier offers keep their cards |
| Tours.Tour.OffreSuivante | src/main/java/jest/modele/jeu/Tour.java:84-96 | one more pass files a fresh offer for the next player; when no card is in two hands, the earlier offers keep their faces |
| Tours.Tour.OffresCreees | src/main/java/jest/modele/jeu/Tour.java:83-97 | after the last pass the offers are the earlier ones overwritten by one distinct offer per player, with the faces above when no card is in two hands |
| Tours.MainsDisjointesPaire | src/main/java/jest/modele/jeu/Tour.java:83-97 | when no card is twice among the hands, two players' hands share no card |
| Tours.CartesEnMainTranches | src/main/java/jest/modele/jeu/Tour.java:67-72 | hands dealt as consecutive pairs of the pool hold, player after player, the pool's first cards |
| Tours.PiocheDistincteMainsDisjointes | src/main/java/jest/modele/jeu/Tour.java:67-72 | hands dealt from a pool without repeated cards share no card |
| Tours.Tour.DeterminerPremierJoueur | src/main/java/jest/modele/jeu/Tour.java:109-122 | the owner of an offer whose visible card no other visible card outranks; null iff there is no offer |
| Tours.Tour.ExecuterPrisesCartes | src/main/java/jest/modele/jeu/Tour.java:127-160 | every player plays once; each takes one card of a distinct complete offer into their Jest; each offer loses exactly that card and ends with one |
| Tours.Tour.Prendre | src/main/java/jest/modele/jeu/Tour.java:133-159 | one taking: a card of a complete offer (another player's when there is one) goes to the taker's Jest, the offer loses it, and the taker is marked as played |
| Tours.Tour.GetOffresDisponibles | src/main/java/jest/modele/jeu/Tour.java:169-187 | the complete offers of the other players; if there are none, the player's own offer when complete |
| Tours.Tour.DeterminerJoueurSuivant | src/main/java/jest/modele/jeu/Tour.java:196-220 | the raided owner if they have not played, else the remaining player with the strongest visible card |
| Tours.Tour.GetCartesResiduelles | src/main/java/jest/modele/jeu/Tour.java:226-232 | the cards left in the offers, in some enumeration of the offers |
| Tours.PrisesFinales | src/main/java/jest/modele/jeu/Tour.java:127-160 | once every player has taken, each took one card from a distinct offer, which lost exactly that card and holds one, and each Jest gained the card taken |
| Tours.Tour.Passes | src/main/java/jest/modele/jeu/Tour.java:133-159 | the `for` loop over the players keeps the taking invariant from the first player to the last |
| Tours.Tour.Pas | src/main/java/jest/modele/jeu/Tour.java:134-158 | one pass of the loop body keeps the taking invariant one step further, and names the next player |
| Tours.Tour.PriseDe | src/main/java/jest/modele/jeu/Tour.java:137-153 | the active player takes a card of an available offer: the invariant advances by one taking, and the raided owner is returned |
| Tours.Tour.Suivant | src/main/java/jest/modele/jeu/Tour.java:156-158 | the next player has not played yet, and choosing them changes no offer and no Jest |
| Tours.Tour.Choisir | src/main/java/jest/modele/jeu/Tour.java:137-143 | the chosen offer is complete and holds the chosen card, and is another player's whenever one is available |
| Tours.Tour.Retirer | src/main/java/jest/modele/jeu/Tour.java:146 | the raided offer loses exactly the card; no other offer and no Jest changes |
| Tours.Tour.Marquer | src/main/java/jest/modele/jeu/Tour.java:153 | the active player is added to those who have played; offers and Jests are unchanged |
| Parties.PaquetSansTrophee | src/main/java/jest/modele/jeu/Partie.java:52-64 | no card of the initial deck is a trophy, so every seed becomes a new trophy |
| Parties.Deroulement | src/main/java/jest/modele/jeu/Partie.java:86-101 | the round counter only grows |
| Parties.DeroulementMultiple | src/main/java/jest/modele/jeu/Partie.java:86-101 | after the first round, a pile of k·n cards lasts exactly k more rounds |
| Parties.DeroulementReste | src/main/java/jest/modele/jeu/Partie.java:86-101 | after the first round, a pile that is not a multiple of n ends with a round that cannot draw |
| Parties.DeroulementPartie | src/main/java/jest/modele/jeu/Partie.java:86-101 | an empty pile plays no round; a pile of (k+2)·n cards plays k+1 rounds; any other size over 2n fails, as does any pile below 2n |
| Parties.Recuperees | src/main/java/jest/modele/jeu/Partie.java:150-158 | the hand-out of the residue keeps one Jest per player |
| Parties.EvaluationDeTrophee | src/main/java/jest/modele/jeu/Partie.java:190-191 | trophy i is evaluated with its own condition |
| Parties.Attribuer | src/main/java/jest/modele/jeu/Partie.java:187-201 | the attribution gives one winner (or none) per trophy, in list order, and stops at the first exception |
| Parties.AttributionBornee | src/main/java/jest/modele/jeu/Partie.java:187-201 | every trophy winner is a player of the list |
| Parties.AttributionSansMeilleurJest | src/main/java/jest/modele/jeu/Partie.java:187-201 | without a best-Jest trophy the attribution never throws |
| Parties.TropheesPartages | src/main/java/jest/modele/jeu/Partie.java:190-199 | each trophy goes to at most one player: the trophies handed out number the trophies with a winner |
| Parties.AttributionArretee | src/main/java/jest/modele/jeu/Partie.java:190-191 | after an exception no later trophy is evaluated |
| Parties.FinPartieAtteinte | src/main/java/jest/modele/jeu/Partie.java:143-182 | the steps of the end of the game, done in order, give the end of the game |
| Parties.Partie.constructor | src/main/java/jest/modele/jeu/Partie.java:25-32 | a new game: no player, an empty deck, no trophy, round 0, no extension |
| Parties.Partie.Initialiser | src/main/java/jest/modele/jeu/Partie.java:39-81 | IllegalArgumentException, nothing changed, unless 3 or 4 players; otherwise 2 (three players) or 1 trophy seeded from the shuffled 21-card deck, each a new trophy of the seed's colour and face, and a pile of exactly the remaining deck cards |
| Parties.Partie.CreerPioche | src/main/java/jest/modele/jeu/Partie.java:67-69 | the pile is a shuffle of the deck's remaining cards |
| Parties.Partie.PreparerPaquet | src/main/java/jest/modele/jeu/Partie.java:48-53 | the seeds and the deck's remaining cards make up the 21-card deck |
| Parties.Partie.PlacerTrophees | src/main/java/jest/modele/jeu/Partie.java:55-64 | each seed becomes a new trophy of its colour and face, appended in order |
| Parties.Partie.Demarrer | src/main/java/jest/modele/jeu/Partie.java:86-101 | rounds are numbered from 1 and played while the pile is not empty; the game fails exactly when `Deroulement` fails; otherwise the pile is empty, each player took one card per round, and the end of the game followed |
| Parties.Partie.JouerTours | src/main/java/jest/modele/jeu/Partie.java:89-97 | the round loop ends with an empty pile, the counter where `Deroulement` says, or with the failure it predicts |
| Parties.Partie.ExecuterTour | src/main/java/jest/modele/jeu/Partie.java:107-128 | a round fails iff the pile cannot serve its draw (pile unchanged) or the residue is short; a failed round changes no Jest; otherwise the pile loses its draw, every player's Jest gains one card, and the residue has one card per player |
| Parties.Partie.TerminerPartie | src/main/java/jest/modele/jeu/Partie.java:143-182 | residual card i to player i, all Jests revealed, base scores stored, trophies attributed over them in list order, final scores with trophies, and the winner of the final scores |
| Parties.Partie.RecupererResidus | src/main/java/jest/modele/jeu/Partie.java:150-158 | player i receives residual card i for i below both counts; extra residual cards are not handed out |
| Parties.Partie.RevelerJests | src/main/java/jest/modele/jeu/Partie.java:160-165 | every card of every Jest is visible; no Jest changes |
| Parties.Partie.ScorerSansTrophees | src/main/java/jest/modele/jeu/Partie.java:168-171 | every player's stored score is the score of their Jest without trophies |
| Parties.Partie.AttribuerTrophees | src/main/java/jest/modele/jeu/Partie.java:187-201 | the trophies are evaluated in list order over the stored scores, each appended to its winner's Jest; the first exception stops the attribution; no card and no score changes |
| Parties.Partie.AttribuerUnTrophee | src/main/java/jest/modele/jeu/Partie.java:190-199 | one pass of the loop: the trophy is evaluated and goes to its winner, or the attribution stops with its exception |
| Parties.Partie.EvaluerTrophee | src/main/java/jest/modele/jeu/Partie.java:191 | the winner is the one the trophy's condition designates |
| Parties.Partie.CalculerScores | src/main/java/jest/modele/jeu/Partie.java:206-214 | every player's stored score is the score of their Jest, with or without trophies as asked |
| Parties.ScoresCalcules | src/main/java/jest/modele/jeu/Partie.java:206-214 | players whose stored scores are those of their Jests hold, in list order, the expected scores |
| Parties.Partie.ScorerJoueur | src/main/java/jest/modele/jeu/Partie.java:208-210 | player i's stored score is the score of their Jest, with or without trophies as asked |
| Parties.Partie.Departager | src/main/java/jest/modele/jeu/Partie.java:220-241 | final scores with trophies, and the winner `determinerGagnant` designates |
| Parties.Partie.Commencer | src/main/java/jest/modele/jeu/Partie.java:87 | the round counter starts at 1 with the pile and Jests as they are |
| Parties.Partie.JouerTour | src/main/java/jest/modele/jeu/Partie.java:89-97 | one round and the counter's increment: a failure is the one `Deroulement` predicts; otherwise the pile shrinks and each Jest gains one card |
| Parties.Partie.DistribuerTour | src/main/java/jest/modele/jeu/Partie.java:108-116 | the round's deal fails iff the pile or the residue is short, with the exception Java throws; otherwise the pile loses its draw and the hands are the deal of the pool |
| Parties.Partie.Tirer | src/main/java/jest/modele/jeu/Tour.java:48-76 | the deal over a new round: the failure conditions and the pile afterwards, with every card of the pool from the game's cards |
| Parties.Partie.OffrirTour | src/main/java/jest/modele/jeu/Partie.java:119 | one complete fresh offer per player, made of cards of the game; no Jest and no pile changes; when the dealt pool has no repeated card, each offer's visible card is face up and its hidden card face down |
| Parties.Partie.PrendreTour | src/main/java/jest/modele/jeu/Partie.java:122 | every player takes one card: each Jest gains its taken card, and each offer keeps one card of the game |
| Parties.Partie.Prises | src/main/java/jest/modele/jeu/Tour.java:127-160 | the taking phase over a new round's offers gives each player one card and leaves one card per offer |
| Parties.Partie.StockerResidus | src/main/java/jest/modele/jeu/Partie.java:125 | the stored residue has one card per player; the Jests are unchanged |
| Parties.Partie.Finir | src/main/java/jest/modele/jeu/Partie.java:100 | the end of the game from the Jests as they are when the rounds stop |
| Parties.Partie.ConclurePartie | src/main/java/jest/modele/jeu/Partie.java:168-180 | base scores, trophies attributed over them, then either the exception of the attribution or the final scores and winner |
| Parties.Partie.ScorerEtAttribuer | src/main/java/jest/modele/jeu/Partie.java:168-174 | stored base scores without trophies, then the trophies attributed over them |
| Parties.Partie.AttribuerSurJestsReveles | src/main/java/jest/modele/jeu/Partie.java:174 | the attribution over the revealed Jests and the stored scores, with each trophy appended to its winner's Jest |
| Parties.Partie.AjouterResidu | src/main/java/jest/modele/jeu/Partie.java:152-155 | player i's Jest gains the residual card; no other Jest changes |
| Parties.Partie.DonnerTropheeA | src/main/java/jest/modele/jeu/Partie.java:192-194 | trophy i goes to its winner's Jest, extending the trophies handed out so far by one |
| Parties.Partie.DonnerTrophee | src/main/java/jest/modele/jeu/Partie.java:192-194 | the winner's Jest, and only it, gains the trophy; null gives it to nobody |
| Extensions.MalchanceSsiQuatre | src/main/java/jest/modele/extensions/ExtensionMagique.java:21-28 | the extension holds a Malchance iff there are four players; it has 3 or 4 cards, none a Joker or a trophy |
| Extensions.MagiquesSpeciales | src/main/java/jest/modele/extensions/ExtensionMagique.java:34-53 | every magic card is a SPECIALE card of face value 1 |
| Extensions.ValeurAgregee | src/main/java/jest/modele/extensions/ExtensionMagique.java:39-85 | the loop of the Multiplicateur (Bouclier) sums the effective values of the Jest's spades (diamonds) |
| Extensions.Extension.Magique | src/main/java/jest/modele/extensions/Extension.java:24-29 | name and description stored; the extra cards are exactly those `initialiserCartes` adds |
| Extensions.Extension.InitialiserCartes | src/main/java/jest/modele/extensions/ExtensionMagique.java:21-28 | appends a Multiplicateur, a Bouclier, a Chance in 0..5 and, for four players, a Malchance in 0..5, all fresh and hidden |
| Extensions.Extension.GetCartesSupplementaires | src/main/java/jest/modele/extensions/Extension.java:41-43 | a copy with the same cards, as a value |
| Extensions.Extension.AjouterAuPaquet | src/main/java/jest/modele/extensions/Extension.java:50-52 | the extra cards are appended to the deck in order |
| Variantes.ModifierScoring | src/main/java/jest/modele/extensions/VarianteTactique.java:30-34 | the calculator and its visitors are unchanged |
| Variantes.Caracteristiques | src/main/java/jest/modele/extensions/VarianteRapide.java:17-46 | names tell the variants apart; only the tactical variant deals 3 cards, the others 2; the quick variant seeds 3 trophies, the others 2 for three players and 1 otherwise |
| Variantes.StandardCommePartie | src/main/java/jest/modele/extensions/VarianteStandard.java:22-39 | the standard variant deals 2, seeds as `initialiser` does and ends iff the pile is empty; the tactical one differs only in dealing one card more |
| Variantes.FinSelonVariante | src/main/java/jest/modele/extensions/VarianteRapide.java:38-41 | an empty pile ends every variant; the quick one ends iff the pile is empty or the round is at least 4, and once it ends it stays ended |
| Variantes.TourFinal | src/main/java/jest/modele/extensions/VarianteRapide.java:38-41 | the round at which a variant's end check first holds over a sequence of piles, none holding before |
| Variantes.RapideAuPlusTot | src/main/java/jest/modele/extensions/VarianteRapide.java:38-41 | over the same piles the quick variant stops no later than the standard one, and by round 4 |
| Constats.PaquetEcrit | src/main/java/jest/modele/cartes/Paquet.java:29-50 | as written: 21 cards; with three players the pile of 19 fails a round, with four the pile of 20 lasts four rounds |
| Constats.PaquetCorrige | src/main/java/jest/modele/cartes/Paquet.java:33-41 | the four colours and the Joker: 17 distinct cards, and the pile is used up exactly with three or four players |
| Constats.JokerSeulEcrit | src/main/java/jest/modele/score/VisiteurCoeurs.java:43-51 | as written: a Jest holding only the Joker scores 0 |
| Constats.CoeursCorriges | src/main/java/jest/modele/score/VisiteurCoeurs.java:22-51 | hearts counted without the Joker: +4 for the Joker alone, minus the hearts with one to three, plus them with four, 0 without the Joker |
| Constats.JokerSeulCorrige | src/main/java/jest/modele/score/VisiteurCoeurs.java:43-51 | with hearts counted without the Joker, the Joker alone scores 4 |

## Left out

- Output: every `System.out.println`, `toString`, `toStringCourt`, `afficherDetails`, `afficherDetailScore` and `afficherResultatsFinaux` only format text.
- Presentation, controllers, entry points, the two-thread input race and saving games are not part of this model. They hold no game rule.
- `JoueurPhysique`, `JoueurVirtuel` and `StrategieAleatoire` are console input, delegation and `Random`. In a round, the three player decisions (hidden card, target offer, card taken) are arbitrary choices among what is offered. The two deterministic strategies are modelled on their own, and `Strategies.PrisesDansOffre` shows that they choose among what is offered.
- Shuffles (`Collections.shuffle` in `Paquet.melanger`, `Pioche.melanger` and the round pool) are arbitrary permutations. `genererConditionAleatoire` is an arbitrary condition. The random values of Chance and Malchance are arbitrary values in 0..5.
- `HashMap` iteration order over the offers is not specified. Every loop over it (first player, available offers, residue) runs in an arbitrary enumeration of its keys. The residue's order, and the first player when visible cards tie, are therefore not pinned down.
- Java `int` arithmetic is modelled with unbounded integers. Scores stay far from 32-bit limits. `Integer.MIN_VALUE`, the start value of the winner scans, is kept as the constant `ScoreMinimal`.
- A `NullPointerException` that a well-formed game cannot reach is a precondition instead of an error result:
  - an offer without a visible card given to a strategy;
  - a hand other than two cards in `creerOffres`;
  - a null card in a Jest.
- The empty `CarteNormale` wrapper that `As.accepter` passes to the visitors answers every query as the Ace does, so the model hands the Ace itself. That wrapper is built by the public two-argument constructor, whose validation the Ace's face value 1 passes; the protected constructor that skips validation is not used by the core and is not modelled.
- Trivial getters (`getCouleur`, `getValeurFaciale`, `estAs`, `getNom`, `getJest`, `getScore`, `getTaille`, `getNom`/`getDescription` of a variant) are functions without contracts of their own. The lemmas above state their properties.
- `Partie` never consults a variant, so the `Variantes` functions are not connected to the game loop. `Variantes.StandardCommePartie` relates the standard variant to what `Partie` does.
- `Paquet.initialiser` ignores its extension flag, so in the game the extension's cards never reach the deck. The extension is modelled on its own.
- Parties.Partie.Initialiser / Parties.Partie.Demarrer: the playable state (`Pret`) needs distinct players with distinct Jests, and `Initialiser` establishes it only then. `initialiser` also accepts a list holding the same player twice; the offers map then files one offer for both, and the rounds that follow are not modelled for that input.
- Parties.Partie.OffrirTour: the face-up and face-down outcome is stated for a dealt pool without repeated cards. The model does not carry the distinctness of the pile's cards from round to round, so it does not derive that condition from the game state.
- Tours.Tour.CreerOffres: when one card is in two hands, the later offer turns it again; the faces are then not stated.
- Gestionnaire.ObtenirClassement: the contract does not state that players with equal scores keep their input order, which the stable `List.sort` guarantees.
- Parties.Partie.Demarrer: the trophies that the end of the game starts from are an output of the method. The contract does not say that the rounds leave them as they were at the start.

## Findings

| source | as written | input that shows it | evidently intended | confidence | as-written member | corrected member |
|---|---|---|---|---|---|---|
| src/main/java/jest/modele/cartes/Paquet.java:33-41 | the colour loop runs over every `Couleur`, SPECIALE included, so the deck has 21 cards | three players: two trophies leave a pile of 19. Round 1 draws 6, each later round 3 (13, 10, 7, 4, 1 left), and the round after that cannot draw, so `piocher` throws `IllegalStateException` | the Ace to 4 of the four colours of the game and the Joker: 17 cards, whose pile (15 or 16) is used up exactly | not executed | Constats.PaquetEcrit | Constats.PaquetCorrige |
| src/main/java/jest/modele/score/VisiteurCoeurs.java:43-51 | the Joker's +4 applies when the Jest's heart count is 0. The Joker is itself a heart (Joker.java:18), so that count is never 0 when it is visited | a Jest holding only the Joker: base score 0 | the Joker alone is worth +4; the heart counts exclude the Joker | not executed | Constats.JokerSeulEcrit | Constats.JokerSeulCorrige |

The corrected definitions stand in `Constats` beside the as-written ones. The rest of the model keeps the behaviour of the code as written.
