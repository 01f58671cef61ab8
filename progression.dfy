/** The arithmetic of the levelling engine: how an experience award turns into
    level-ups. A player's progression is a level and the experience points
    accumulated inside that level; reaching level L+1 from level L costs
    L * 100 points, and points left over are carried into the new level. */
module Progression {

  /** Experience needed per level: leaving level L costs L * XpPerLevel points. */
  const XpPerLevel: int := 100

  /** A player's level and the experience points held within that level. */
  datatype Standing = Standing(level: int, xp: int)

  /** A new account: level 1, no experience. */
  const Initial: Standing := Standing(1, 0)

  /** Points needed to leave `level`. */
  function Threshold(level: int): (r: int)
    ensures 1 <= level ==> XpPerLevel <= r
    ensures r % XpPerLevel == 0
  {
    level * XpPerLevel
  }

  /** Points spent on the level-ups from level 1 up to `level`:
      100 + 200 + ... + (level - 1) * 100. */
  function LevelBase(level: int): int {
    50 * level * (level - 1)
  }

  /** All experience ever credited: what the levels cost plus what is held now. */
  function TotalXp(s: Standing): int {
    LevelBase(s.level) + s.xp
  }

  /** A standing the engine can leave behind after a non-negative award:
      a real level and a balance below that level's threshold. */
  predicate Settled(s: Standing) {
    1 <= s.level && 0 <= s.xp < Threshold(s.level)
  }

  /** The measure that makes the level-up loop stop, whatever the level:
      a level below 1 has a threshold of at most 0, so every step raises the
      level towards 1; from level 1 on every step removes at least 100 points. */
  function LevelDebt(level: int): nat {
    if level < 1 then 1 - level else 0
  }

  lemma LevelBaseStep(level: int)
    ensures LevelBase(level + 1) == LevelBase(level) + Threshold(level)
  {
  }

  /** Levels cost more the higher they are, so the bases grow with the level. */
  lemma {:induction false} LevelBaseGrows(i: int, j: int)
    requires 1 <= i <= j
    ensures LevelBase(i) <= LevelBase(j)
    decreases j - i
  {
    if i < j {
      LevelBaseGrows(i, j - 1);
      LevelBaseStep(j - 1);
    }
  }

  /** Crossing thresholds one level at a time, as long as the points held reach
      the current level's threshold: the level-up loop of the engine. */
  function Settle(s: Standing): (r: Standing)
    // the bound the loop establishes on exit
    ensures r.xp < Threshold(r.level)
    // levels are never lost
    ensures r.level >= s.level
    // no experience is created or destroyed by levelling up
    ensures TotalXp(r) == TotalXp(s)
    // from a real level, a negative balance is left alone and a non-negative one stays non-negative
    ensures 1 <= s.level ==> (0 <= r.xp <==> 0 <= s.xp)
    ensures 1 <= s.level && s.xp < 0 ==> r == s
    decreases LevelDebt(s.level), s.xp
  {
    if s.xp >= Threshold(s.level) then
      LevelBaseStep(s.level);
      Settle(Standing(s.level + 1, s.xp - Threshold(s.level)))
    else
      s
  }

  /** What crediting `amount` points does to a standing: add, then level up.
      The total moves by exactly the amount, the level never drops, and the
      points left are below the new level's threshold. */
  function Award(s: Standing, amount: int): (r: Standing)
    ensures TotalXp(r) == TotalXp(s) + amount
    ensures r.level >= s.level
    ensures r.xp < Threshold(r.level)
  {
    Settle(Standing(s.level, s.xp + amount))
  }

  /** Two settled standings with the same total experience are the same standing:
      the total alone fixes the level and the points held. */
  lemma SettledIsUnique(a: Standing, b: Standing)
    requires Settled(a) && Settled(b)
    requires TotalXp(a) == TotalXp(b)
    ensures a == b
  {
    if a.level < b.level {
      LevelBaseStep(a.level);
      LevelBaseGrows(a.level + 1, b.level);
    } else if b.level < a.level {
      LevelBaseStep(b.level);
      LevelBaseGrows(b.level + 1, a.level);
    }
  }

  /** A non-negative award keeps a settled standing settled. */
  lemma AwardKeepsSettled(s: Standing, amount: int)
    requires Settled(s) && 0 <= amount
    ensures Settled(Award(s, amount))
  {
  }

  /** From a settled standing, the result of a non-negative award is the one
      settled standing whose total is the old total plus the award. */
  lemma AwardIsDeterminedByTotal(s: Standing, amount: int, t: Standing)
    requires Settled(s) && 0 <= amount
    requires Settled(t) && TotalXp(t) == TotalXp(s) + amount
    ensures Award(s, amount) == t
  {
    AwardKeepsSettled(s, amount);
    SettledIsUnique(Award(s, amount), t);
  }

  /** An award of zero changes nothing on a settled standing. */
  lemma AwardZero(s: Standing)
    requires Settled(s)
    ensures Award(s, 0) == s
  {
  }

  /** A negative award on a real level never levels up or down: the points
      held simply drop, below zero if the award is large enough. */
  lemma NegativeAwardKeepsLevel(s: Standing, amount: int)
    requires 1 <= s.level && s.xp < Threshold(s.level) && amount < 0
    ensures Award(s, amount) == Standing(s.level, s.xp + amount)
  {
  }

  /** Awarding `a1` and then `a2` ends where awarding `a1 + a2` at once ends,
      as long as the second award is not negative. */
  lemma AwardSplit(s: Standing, a1: int, a2: int)
    requires 1 <= s.level && 0 <= a2
    ensures Award(Award(s, a1), a2) == Award(s, a1 + a2)
  {
    var r1 := Award(s, a1);
    if r1.level == s.level {
      assert r1 == Standing(s.level, s.xp + a1);
    } else {
      var r2 := Award(r1, a2);
      var r3 := Award(s, a1 + a2);
      assert Settled(r1);
      assert Settled(r2);
      LevelBaseStep(s.level);
      LevelBaseGrows(s.level + 1, r1.level);
      assert 0 <= s.xp + a1 + a2;
      assert Settled(r3);
      SettledIsUnique(r2, r3);
    }
  }

  /** Splitting is not safe when the second award is negative: a level-up
      followed by a penalty keeps the new level, while the net award does not
      reach it. From level L with no points: the threshold and then -50 gives
      level L + 1 with -50 points; the net amount at once stays on level L. */
  lemma AwardSplitNeedsNonNegativeSecond(level: int)
    requires 1 <= level
    ensures Award(Award(Standing(level, 0), Threshold(level)), -50) == Standing(level + 1, -50)
    ensures Award(Standing(level, 0), Threshold(level) - 50) == Standing(level, Threshold(level) - 50)
  {
    ExactThresholdLevelsOnce(level);
    NegativeAwardKeepsLevel(Standing(level + 1, 0), -50);
    AwardZero(Standing(level, Threshold(level) - 50));
  }

  /** An award of exactly the current threshold on an empty balance is one
      level-up with nothing carried over. */
  lemma ExactThresholdLevelsOnce(level: int)
    requires 1 <= level
    ensures Award(Standing(level, 0), Threshold(level)) == Standing(level + 1, 0)
  {
    assert Settle(Standing(level + 1, 0)) == Standing(level + 1, 0);
  }

  /** Level 1 with 90 points, plus 20: level 2 with 10 points. */
  lemma CarryIntoNextLevel()
    ensures Award(Standing(1, 90), 20) == Standing(2, 10)
  {
    assert Settle(Standing(2, 10)) == Standing(2, 10);
  }

  /** A new account credited 250 points crosses one threshold only: after the
      first level-up the threshold becomes 200, which the 150 points carried
      over do not reach, so it ends on level 2 with 150 points. */
  lemma OneLevelFor250()
    ensures Award(Initial, 250) == Standing(2, 150)
  {
    assert Settle(Standing(2, 150)) == Standing(2, 150);
  }

  /** Level 3 is reached from a new account at 300 points: 100 for leaving
      level 1 and 200 for leaving level 2. */
  lemma ThreeHundredReachesLevelThree()
    ensures Award(Initial, 300) == Standing(3, 0)
  {
    assert Settle(Standing(3, 0)) == Standing(3, 0);
    assert Settle(Standing(2, 200)) == Standing(3, 0);
  }
}
