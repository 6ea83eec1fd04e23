/** Players (Joueur.java): a name, a Jest and the last computed score.

    The three choice methods of a player are abstract in Java and belong to
    the concrete players; the round engine takes them as arbitrary choices
    among the options offered, and the deterministic computer strategies are
    modelled on their own (module Strategies).
 */
module Joueurs {
  import opened Cartes
  import opened Jests

  class Joueur {
    const nom: string
    const jest: Jest
    var scoreCalcule: int

    /** A new player has the given name, an empty Jest and score 0. */
    constructor (nom: string)
      ensures this.nom == nom && fresh(jest)
      ensures jest.cartes == [] && jest.trophees == [] && scoreCalcule == 0
    {
      this.nom := nom;
      jest := new Jest();
      scoreCalcule := 0;
    }

    function GetNom(): string {
      nom
    }

    function GetJest(): Jest {
      jest
    }

    function GetScore(): int
      reads this
    {
      scoreCalcule
    }

    method SetScore(score: int)
      modifies this`scoreCalcule
      ensures GetScore() == score
    {
      scoreCalcule := score;
    }

    /** `ajouterCarteAuJest`: appends the card to the Jest; nothing else changes. */
    method AjouterCarteAuJest(carte: Carte)
      modifies jest`cartes
      ensures jest.cartes == old(jest.cartes) + [carte]
      ensures jest.trophees == old(jest.trophees)
    {
      jest.AjouterCarte(carte);
    }
  }

  /** `Integer.MIN_VALUE`, the starting point of the running-maximum scans. */
  const ScoreMinimal: int := -0x8000_0000

  /** The Jests of a list of players. */
  function JestsDe(js: seq<Joueur>): set<Jest> {
    set i | 0 <= i < |js| :: js[i].jest
  }

  /** No two players of the list share a Jest. */
  predicate JestsDistincts(js: seq<Joueur>) {
    forall k, l | 0 <= k < l < |js| :: js[k].jest != js[l].jest
  }

  /** The cards of each player's Jest, in list order. */
  function MainsDe(js: seq<Joueur>): (mains: seq<seq<Carte>>)
    reads JestsDe(js)
    ensures |mains| == |js|
    ensures forall i | 0 <= i < |js| :: mains[i] == js[i].jest.cartes
  {
    seq(|js|, i requires 0 <= i < |js| reads JestsDe(js) => js[i].jest.cartes)
  }

  /** The Jests keep their cards when no Jest's card list changed. */
  twostate lemma MainsInchangees(js: seq<Joueur>)
    requires forall i | 0 <= i < |js| :: old(js[i].jest.cartes) == js[i].jest.cartes
    ensures MainsDe(js) == old(MainsDe(js))
  {
    assert forall i | 0 <= i < |js| :: MainsDe(js)[i] == old(MainsDe(js))[i];
  }

  /** The stored score of each player, in list order. */
  function ScoresDe(js: seq<Joueur>): (scores: seq<int>)
    reads set i | 0 <= i < |js| :: js[i]
    ensures |scores| == |js|
    ensures forall i | 0 <= i < |js| :: scores[i] == js[i].scoreCalcule
  {
    seq(|js|, i requires 0 <= i < |js| reads set i | 0 <= i < |js| :: js[i] => js[i].scoreCalcule)
  }
}
