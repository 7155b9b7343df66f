/** The seven-bag: pieces are dealt from shuffles of the seven kinds. */
module TetrisBag {
  import opened TetrisBoard

  const KINDS: seq<Kind> := [I, O, T, S, Z, J, L]

  /** The n-th shuffle; any permutations will do. */
  type Shuffles = nat -> seq<Kind>

  /** Seven entries, every kind somewhere, none twice. */
  ghost predicate Permutation(s: seq<Kind>) {
    |s| == 7 && (forall k: Kind :: k in s) && forall i, j :: 0 <= i < j < 7 ==> s[i] != s[j]
  }

  /** The k-th piece dealt: each round of seven empties one shuffle from its end. */
  function Dealt(sh: Shuffles, k: nat): Kind
    requires |sh(k / 7)| == 7
  {
    sh(k / 7)[6 - k % 7]
  }

  class Bag {
    const shuffles: Shuffles
    var bag: seq<Kind>
    var rounds: nat
    /** How many pieces were drawn. */
    ghost var drawn: nat

    /** The bag holds what is left of the current shuffle. */
    ghost predicate Valid()
      reads this
    {
      && (forall n :: Permutation(shuffles(n)))
      && rounds == (drawn + 6) / 7
      && bag == if drawn % 7 == 0 then [] else shuffles(drawn / 7)[..7 - drawn % 7]
    }

    ghost function Nth(k: nat): Kind
      requires Valid()
      reads this
    {
      assert Permutation(shuffles(k / 7));
      Dealt(shuffles, k)
    }

    constructor (shuffles: Shuffles)
      requires forall n :: Permutation(shuffles(n))
      ensures Valid() && this.shuffles == shuffles && drawn == 0
    {
      this.shuffles, bag, rounds, drawn := shuffles, [], 0, 0;
    }

    /** Deals the next kind; reshuffles when the bag is empty. */
    method Draw() returns (k: Kind)
      requires Valid()
      modifies this
      ensures Valid() && drawn == old(drawn) + 1 && k == Nth(old(drawn))
    {
      assert Permutation(shuffles(drawn / 7));
      DrawArithmetic(drawn);
      if bag == [] {
        bag := shuffles(rounds);
        rounds := rounds + 1;
      }
      k := bag[|bag| - 1];
      bag := bag[..|bag| - 1];
      drawn := drawn + 1;
    }
  }

  lemma DrawArithmetic(n: nat)
    ensures n % 7 == 6 ==> (n + 1) % 7 == 0 && (n + 1) / 7 == n / 7 + 1 && (n + 7) / 7 == n / 7 + 1 == (n + 6) / 7
    ensures n % 7 != 6 ==> (n + 1) % 7 == n % 7 + 1 && (n + 1) / 7 == n / 7
    ensures n % 7 == 0 ==> (n + 6) / 7 == n / 7 && (n + 7) / 7 == n / 7 + 1
    ensures 0 < n % 7 < 6 ==> (n + 6) / 7 == n / 7 + 1 == (n + 7) / 7
  {
  }

  /** Draw number 7 * round + i is kind k. */
  ghost predicate DealtAt(sh: Shuffles, round: nat, i: nat, k: Kind) {
    var n := 7 * round + i;
    |sh(n / 7)| == 7 && Dealt(sh, n) == k
  }

  /** The seven draws of a round read one shuffle, from its end. */
  lemma DealtRound(sh: Shuffles, round: nat, i: nat)
    requires i < 7 && Permutation(sh(round))
    ensures forall k :: DealtAt(sh, round, i, k) <==> sh(round)[6 - i] == k
  {
    assert (7 * round + i) / 7 == round && (7 * round + i) % 7 == i;
  }

  /** Any seven draws that start a round deal every kind exactly once. */
  lemma SevenBag(sh: Shuffles, round: nat, k: Kind)
    requires forall n :: Permutation(sh(n))
    ensures exists i :: 0 <= i < 7 && DealtAt(sh, round, i, k)
    ensures forall i, j :: 0 <= i < 7 && 0 <= j < 7 && DealtAt(sh, round, i, k) && DealtAt(sh, round, j, k) ==> i == j
  {
    hide DealtAt;
    var s := sh(round);
    assert Permutation(s);
    assert k in s;
    var p :| 0 <= p < |s| && s[p] == k;
    DealtRound(sh, round, 6 - p);
    assert DealtAt(sh, round, 6 - p, k);
    forall i, j | 0 <= i < 7 && 0 <= j < 7 && DealtAt(sh, round, i, k) && DealtAt(sh, round, j, k) ensures i == j {
      DealtRound(sh, round, i);
      DealtRound(sh, round, j);
    }
  }
}
