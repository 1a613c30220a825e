/**
 * The pot arithmetic of the game hook (src/client/hooks/useFlexword.ts, handleMiss and
 * the winnings formula of handleWin). Multipliers are exact tenths, so
 * `Math.floor(pot * multiplier)` is `pot * multiplierTenths / 10`.
 */
module Economy {
  import opened ClientTypes

  /** The stake every round starts with. */
  const BaseStake: nat := 10000

  /** handleMiss: once the guess count reaches the contract's budget, every miss floor-halves the pot. */
  function PotAfterMiss(pot: nat, guessCount: nat, budget: nat): (r: nat)
    ensures r <= pot
    ensures guessCount < budget ==> r == pot
    ensures guessCount >= budget ==> r + r <= pot <= r + r + 1
  {
    if guessCount >= budget then pot / 2 else pot
  }

  /** handleWin: the multiplier applies to a win inside the budget; an overtime win pays the decayed pot. */
  function Winnings(pot: nat, guessCount: nat, tier: ContractTier): (r: nat)
    ensures guessCount <= tier.guesses ==> r * 10 <= pot * tier.multiplierTenths < r * 10 + 10
    ensures guessCount > tier.guesses ==> r == pot
    ensures tier.multiplierTenths >= 10 ==> r >= pot
  {
    if guessCount <= tier.guesses then
      MultiplierAtLeastOne(pot, tier.multiplierTenths);
      pot * tier.multiplierTenths / 10
    else pot
  }

  lemma MultiplierAtLeastOne(pot: nat, tenths: nat)
    ensures tenths >= 10 ==> pot * tenths / 10 >= pot
  {
    if tenths >= 10 {
      assert pot * tenths >= pot * 10;
    }
  }

  /** The pot after n consecutive misses under a budget, starting from the base stake. */
  function PotAfterMisses(budget: nat, n: nat): nat {
    if n == 0 then BaseStake else PotAfterMiss(PotAfterMisses(budget, n - 1), n, budget)
  }

  function Pow2(k: nat): (r: nat)
    ensures r >= 1
  {
    if k == 0 then 1 else 2 * Pow2(k - 1)
  }

  /** How many of the misses 1..n were at or past the budget. */
  function Halvings(budget: nat, n: nat): nat
    requires budget >= 1
  {
    if n + 1 <= budget then 0 else n + 1 - budget
  }

  lemma HalveTwice(x: nat, d: nat)
    requires d >= 1
    ensures x / d / 2 == x / (d * 2)
  {
    var q, r := x / d, x % d;
    var q2, r2 := q / 2, q % 2;
    Regroup(d, q2, r2, r);
    assert x == d * q + r;
    assert q == 2 * q2 + r2;
    DivisionByParts(x, d * 2, q2, d * r2 + r);
  }

  /** d * (2 * q2 + r2) + r, written as a quotient and remainder of division by 2d. */
  lemma Regroup(d: nat, q2: nat, r2: nat, r: nat)
    requires r2 <= 1 && r < d
    ensures d * (2 * q2 + r2) + r == (d * 2) * q2 + (d * r2 + r)
    ensures d * r2 + r < d * 2
  {
    assert d * (2 * q2 + r2) == d * (2 * q2) + d * r2;
    assert d * (2 * q2) == (d * 2) * q2;
    if r2 == 1 { assert d * r2 == d; } else { assert d * r2 == 0; }
  }

  lemma DivisionByParts(x: nat, m: nat, q: nat, r: nat)
    requires m >= 1 && x == m * q + r && r < m
    ensures x / m == q
  {
    var q', r' := x / m, x % m;
    assert x == m * q' + r' && r' < m;
    assert m * (q' + 1) == m * q' + m && m * (q + 1) == m * q + m;
    if q > q' {
      MulMonotone(m, q' + 1, q);
      assert false;
    } else if q < q' {
      MulMonotone(m, q + 1, q');
      assert false;
    }
  }

  lemma MulMonotone(a: nat, b: nat, c: nat)
    requires b <= c
    ensures a * b <= a * c
  {
  }

  /** After n misses the pot is the base stake halved once per miss at or past the budget, rounding down. */
  lemma {:induction false} PotClosedForm(budget: nat, n: nat)
    requires budget >= 1
    ensures PotAfterMisses(budget, n) == BaseStake / Pow2(Halvings(budget, n))
  {
    if n > 0 {
      PotClosedForm(budget, n - 1);
      if n >= budget {
        assert Halvings(budget, n) == Halvings(budget, n - 1) + 1;
        HalveTwice(BaseStake, Pow2(Halvings(budget, n - 1)));
      }
    }
  }

  /** Overtime never drives the pot negative: a pot of 1 halves to 0 and stays there. */
  lemma PotBottomsOutAtZero(budget: nat, count: nat)
    requires count >= budget
    ensures PotAfterMiss(1, count, budget) == 0
    ensures PotAfterMiss(0, count, budget) == 0
  {
  }

  /**
   * The risky contract (4 guesses, x3): a win on guess 3 pays 30000; a win on guess 5,
   * after the single halving of the fourth miss, pays the 5000 left in the pot.
   */
  lemma RiskyContractPayouts()
    ensures Winnings(PotAfterMisses(4, 2), 3, Contracts()[2]) == 30000
    ensures PotAfterMisses(4, 4) == 5000
    ensures Winnings(PotAfterMisses(4, 4), 5, Contracts()[2]) == 5000
  {
  }
}
