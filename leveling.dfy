/** Levels, level titles and the streak multiplier.

    The cost of a level is `floor(40 * 1.05^(level - 1))`. It is modelled on
    exact rationals: `1.05^n == 21^n / 20^n`, so the cost is the integer
    quotient `(40 * 21^n) / 20^n`. */
module Leveling {

  function Pow(b: nat, e: nat): nat
  {
    if e == 0 then 1 else b * Pow(b, e - 1)
  }

  lemma {:induction false} PowPositive(b: nat, e: nat)
    requires b >= 1
    ensures Pow(b, e) >= 1
  {
    if e > 0 {
      PowPositive(b, e - 1);
    }
  }

  lemma {:induction false} PowBaseMonotone(a: nat, b: nat, e: nat)
    requires a <= b
    ensures Pow(a, e) <= Pow(b, e)
  {
    if e > 0 {
      PowBaseMonotone(a, b, e - 1);
      MulMonotone(a, Pow(a, e - 1), b, Pow(b, e - 1));
    }
  }

  lemma MulMonotone(a: nat, x: nat, b: nat, y: nat)
    requires a <= b && x <= y
    ensures a * x <= b * y
  {
    assert a * x <= b * x;
    assert b * x <= b * y;
  }

  lemma SignOfProduct(x: int, b: int)
    requires b > 0 && x * b > 0
    ensures x > 0
  {
  }

  /** `a / b` is at least `q` whenever `a` holds `q` copies of `b`. */
  lemma DivLowerBound(a: int, b: int, q: int)
    requires b > 0 && a >= q * b
    ensures a / b >= q
  {
    var d := a / b;
    assert a == d * b + a % b && 0 <= a % b < b;
    assert (d - q + 1) * b == d * b - q * b + b;
    SignOfProduct(d - q + 1, b);
  }

  /** XP needed to advance from `level` to `level + 1`. */
  function XpForLevel(level: int): (r: int)
    requires level >= 1
    ensures r >= 40
  {
    PowPositive(20, level - 1);
    PowBaseMonotone(20, 21, level - 1);
    DivLowerBound(40 * Pow(21, level - 1), Pow(20, level - 1), 40);
    (40 * Pow(21, level - 1)) / Pow(20, level - 1)
  }

  /** Scaling a quotient's dividend by 21 and its divisor by 20 never
      lowers it. */
  lemma QuotientGrows(a: int, b: int)
    requires a >= 0 && b > 0
    ensures (21 * a) / (20 * b) >= a / b
  {
    var q := a / b;
    assert q * b <= a && q >= 0;
    assert 21 * a >= 20 * (q * b);
    assert q * (20 * b) == 20 * (q * b);
    DivLowerBound(21 * a, 20 * b, q);
  }

  /** Each level costs at least as much as the one before. */
  lemma XpForLevelMonotone(level: int)
    requires level >= 1
    ensures XpForLevel(level) <= XpForLevel(level + 1)
  {
    var n := level - 1;
    var a, b := 40 * Pow(21, n), Pow(20, n);
    PowPositive(20, n);
    assert Pow(21, n + 1) == 21 * Pow(21, n);
    assert Pow(20, n + 1) == 20 * b;
    assert 40 * Pow(21, n + 1) == 21 * a;
    QuotientGrows(a, b);
  }

  /** The level reached by spending `remaining` greedily from `level` on. */
  function LevelFrom(level: int, remaining: int): int
    requires level >= 1
    decreases remaining
  {
    if remaining >= XpForLevel(level) then LevelFrom(level + 1, remaining - XpForLevel(level))
    else level
  }

  /** What is left of `remaining` after the greedy walk from `level`. */
  function RemainderFrom(level: int, remaining: int): int
    requires level >= 1
    decreases remaining
  {
    if remaining >= XpForLevel(level) then RemainderFrom(level + 1, remaining - XpForLevel(level))
    else remaining
  }

  /** The level that `totalXP` points buy, starting from level 1. */
  function Level(totalXP: int): (level: int)
    ensures level >= 1
  {
    LevelFromAtLeast(1, totalXP);
    LevelFrom(1, totalXP)
  }

  /** Total XP spent to climb from level 1 up to `level`. */
  function XpToReach(level: int): (r: int)
    requires level >= 1
    ensures r >= 0
  {
    if level == 1 then 0 else XpToReach(level - 1) + XpForLevel(level - 1)
  }

  lemma {:induction false} XpToReachStrictlyIncreasing(i: int, j: int)
    requires 1 <= i < j
    ensures XpToReach(i) + 40 <= XpToReach(j)
  {
    if j > i + 1 {
      XpToReachStrictlyIncreasing(i, j - 1);
    }
  }

  /** The greedy walk from `level` stops at the unique level whose cumulative
      cost brackets `remaining`, and keeps the rest. */
  lemma {:induction false} LevelFromBrackets(level: int, remaining: int)
    requires level >= 1 && remaining >= 0
    ensures LevelFrom(level, remaining) >= level
    ensures XpToReach(LevelFrom(level, remaining)) - XpToReach(level) <= remaining
    ensures remaining < XpToReach(LevelFrom(level, remaining) + 1) - XpToReach(level)
    ensures RemainderFrom(level, remaining)
         == remaining - (XpToReach(LevelFrom(level, remaining)) - XpToReach(level))
    decreases remaining
  {
    if remaining >= XpForLevel(level) {
      LevelFromBrackets(level + 1, remaining - XpForLevel(level));
    }
  }

  lemma {:induction false} LevelFromAtLeast(level: int, remaining: int)
    requires level >= 1
    ensures LevelFrom(level, remaining) >= level
    decreases remaining
  {
    if remaining >= XpForLevel(level) {
      LevelFromAtLeast(level + 1, remaining - XpForLevel(level));
    }
  }

  /** Level is at least 1, and for non-negative XP it is the level whose
      cumulative cost brackets the XP. */
  lemma LevelCharacterization(totalXP: int)
    ensures Level(totalXP) >= 1
    ensures totalXP < 40 ==> Level(totalXP) == 1
    ensures totalXP >= 0 ==> XpToReach(Level(totalXP)) <= totalXP < XpToReach(Level(totalXP) + 1)
  {
    LevelFromAtLeast(1, totalXP);
    if totalXP >= 0 {
      LevelFromBrackets(1, totalXP);
    }
  }

  /** More XP never means a lower level. */
  lemma LevelMonotone(a: int, b: int)
    requires a <= b
    ensures Level(a) <= Level(b)
  {
    LevelCharacterization(a);
    LevelCharacterization(b);
    if a >= 0 && Level(a) > Level(b) {
      XpToReachStrictlyIncreasing(Level(b) + 1, Level(a));
    }
  }

  /** The level-walk of the level bar: `computeLevel`. */
  method ComputeLevel(totalXP: int) returns (level: int)
    ensures level == Level(totalXP) && level >= 1
    ensures totalXP >= 0 ==> XpToReach(level) <= totalXP < XpToReach(level + 1)
  {
    level := 1;
    var xpNeeded := XpForLevel(level);
    var remaining := totalXP;
    while remaining >= xpNeeded
      invariant level >= 1
      invariant xpNeeded == XpForLevel(level)
      invariant LevelFrom(level, remaining) == Level(totalXP)
      decreases remaining
    {
      remaining := remaining - xpNeeded;
      level := level + 1;
      xpNeeded := XpForLevel(level);
    }
    LevelCharacterization(totalXP);
  }

  /** The same walk, returning the progress inside the current level:
      `xpInCurrentLevel`. */
  method XpInCurrentLevel(totalXP: int) returns (current: int, needed: int)
    ensures needed == XpForLevel(Level(totalXP))
    ensures current == totalXP - XpToReach(Level(totalXP))
    ensures totalXP >= 0 ==> 0 <= current < needed
    ensures totalXP < 0 ==> current == totalXP && needed == 40
  {
    var level := 1;
    var xpNeeded := XpForLevel(level);
    var remaining := totalXP;
    while remaining >= xpNeeded
      invariant level >= 1
      invariant xpNeeded == XpForLevel(level)
      invariant LevelFrom(level, remaining) == Level(totalXP)
      invariant RemainderFrom(level, remaining) == RemainderFrom(1, totalXP)
      decreases remaining
    {
      remaining := remaining - xpNeeded;
      level := level + 1;
      xpNeeded := XpForLevel(level);
    }
    current, needed := remaining, xpNeeded;
    LevelCharacterization(totalXP);
    if totalXP >= 0 {
      LevelFromBrackets(1, totalXP);
    } else {
      assert XpForLevel(1) == 40;
    }
  }

  /** The title shown for a level (`getLevelTitleByRange`). */
  function LevelTitle(level: int): (title: string)
    ensures title == "Gran Maestro" <==> level >= 1500
    ensures title == "Leyenda" <==> 600 <= level < 1500
    ensures title == "Maestro" <==> 250 <= level < 600
    ensures title == "Autor" <==> 130 <= level < 250
    ensures title == "Escritor" <==> 50 <= level < 130
    ensures title == "Aprendiz" <==> level < 50
  {
    if level >= 1500 then "Gran Maestro"
    else if level >= 600 then "Leyenda"
    else if level >= 250 then "Maestro"
    else if level >= 130 then "Autor"
    else if level >= 50 then "Escritor"
    else "Aprendiz"
  }

  /** The streak multiplier in tenths: 1.0, 1.5 or 2.0 times. */
  function MultiplierTenths(streak: int): (m: int)
    ensures m == 20 <==> streak >= 7
    ensures m == 15 <==> 3 <= streak < 7
    ensures m == 10 <==> streak < 3
  {
    if streak >= 7 then 20
    else if streak >= 3 then 15
    else if streak >= 1 then 10
    else 10
  }

  /** A longer streak never lowers the multiplier. */
  lemma MultiplierMonotone(a: int, b: int)
    requires a <= b
    ensures MultiplierTenths(a) <= MultiplierTenths(b)
  {
  }
}
