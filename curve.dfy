/** The progression display of App.tsx: the XP score aggregated from the
    GitHub counters and the projects, the inverse-quadratic level curve, the
    progress bar and the skill ranks.

    XP weights are kept in hundredths of a point, so the score is the floor
    of the exact weighted sum. The source adds IEEE doubles instead, whose
    rounding can leave its floored score one below this one. */
module Curve {
  import opened Types

  /** XP per level step: level L starts at `XP_SCALE * L * L`. */
  const XP_SCALE: nat := 50

  /** Weights in hundredths of an XP point: a commit is worth 0.1, a
      repository 5 and a star 0.2. */
  const COMMIT_XP: nat := 10
  const REPO_XP: nat := 500
  const STAR_XP: nat := 20

  /** The difficulties of the four entries of `PROJECTS`, in order. */
  const PROJECTS: seq<Difficulty> := [Hard, Nightmare, Medium, Easy]

  // ---------------------------------------------------------------------
  // Score aggregation

  /** `PROJECTS.reduce((acc, p) => acc + DIFFICULTY_XP[p.difficulty], 0)`, in hundredths. */
  function ProjectsXp(projects: seq<Difficulty>): (h: nat)
  {
    if |projects| == 0 then 0
    else ProjectsXp(projects[..|projects| - 1]) + DifficultyXp(projects[|projects| - 1])
  }

  /** The un-floored score in hundredths of a point. */
  function RawXp(commits: int, repos: int, stars: int, projects: seq<Difficulty>): int
  {
    commits * COMMIT_XP + repos * REPO_XP + stars * STAR_XP + ProjectsXp(projects)
  }

  /** `currentXP`: the floor of the weighted sum. */
  function CurrentXp(commits: int, repos: int, stars: int, projects: seq<Difficulty>): (xp: int)
    ensures xp * 100 <= RawXp(commits, repos, stars, projects) < (xp + 1) * 100
    ensures commits >= 0 && repos >= 0 && stars >= 0 ==> xp >= 0
  {
    RawXp(commits, repos, stars, projects) / 100
  }

  /** Each project adds between one and ten hundredths, so every project list
      contributes at least its length and at most ten times it. */
  lemma {:induction false} ProjectsXpBounds(projects: seq<Difficulty>)
    ensures |projects| <= ProjectsXp(projects) <= 10 * |projects|
    decreases |projects|
  {
    if |projects| > 0 {
      ProjectsXpBounds(projects[..|projects| - 1]);
    }
  }

  /** The four projects of the portfolio total 0.20 XP, which floors to nothing
      on its own. */
  lemma PortfolioProjectsXp()
    ensures ProjectsXp(PROJECTS) == 20
    ensures CurrentXp(0, 0, 0, PROJECTS) == 0
  {
    assert ProjectsXp([Hard]) == 6 by {
      assert [Hard][..0] == [];
    }
    assert ProjectsXp([Hard, Nightmare]) == 16 by {
      assert [Hard, Nightmare][..1] == [Hard];
    }
    assert ProjectsXp([Hard, Nightmare, Medium]) == 19 by {
      assert [Hard, Nightmare, Medium][..2] == [Hard, Nightmare];
    }
    assert PROJECTS[..3] == [Hard, Nightmare, Medium];
  }

  /** The score never decreases when one counter grows or a project is added. */
  lemma CurrentXpMonotone(commits: int, repos: int, stars: int, projects: seq<Difficulty>,
                          commits': int, repos': int, stars': int, extra: seq<Difficulty>)
    requires commits <= commits' && repos <= repos' && stars <= stars'
    ensures CurrentXp(commits, repos, stars, projects) <= CurrentXp(commits', repos', stars', projects + extra)
  {
    ProjectsXpAppend(projects, extra);
    var a := RawXp(commits, repos, stars, projects);
    var b := RawXp(commits', repos', stars', projects + extra);
    assert a <= b;
    DivMonotone(a, b);
  }

  lemma {:induction false} ProjectsXpAppend(a: seq<Difficulty>, b: seq<Difficulty>)
    ensures ProjectsXp(a + b) == ProjectsXp(a) + ProjectsXp(b)
    decreases |b|
  {
    if |b| == 0 {
      assert a + b == a;
    } else {
      assert (a + b)[..|a + b| - 1] == a + b[..|b| - 1];
      ProjectsXpAppend(a, b[..|b| - 1]);
    }
  }

  lemma DivMonotone(a: int, b: int)
    requires a <= b
    ensures a / 100 <= b / 100
  {
    assert a == 100 * (a / 100) + a % 100;
    assert b == 100 * (b / 100) + b % 100;
  }

  // ---------------------------------------------------------------------
  // Level curve

  /** The integer square root: the largest r with r * r <= n. */
  function Isqrt(n: nat): (r: nat)
    ensures r * r <= n < (r + 1) * (r + 1)
  {
    if n == 0 then 0 else IsqrtFromQuarter(n, Isqrt(n / 4))
  }

  /** The root of n from the root q of n / 4: 2q or 2q + 1. */
  function IsqrtFromQuarter(n: nat, q: nat): (r: nat)
    requires q * q <= n / 4 < (q + 1) * (q + 1)
    ensures r * r <= n < (r + 1) * (r + 1)
  {
    IsqrtDouble(n, q);
    var h := 2 * q;
    assert (2 * q + 2) * (2 * q + 2) == (h + 1 + 1) * (h + 1 + 1);
    if (h + 1) * (h + 1) <= n then h + 1 else h
  }

  /** Doubling the root of n / 4 gives a root of n, or one less than it. */
  lemma IsqrtDouble(n: nat, q: nat)
    requires q * q <= n / 4 < (q + 1) * (q + 1)
    ensures (2 * q) * (2 * q) <= n < (2 * q + 2) * (2 * q + 2)
  {
    var m := n / 4;
    assert 4 * m <= n <= 4 * m + 3;
    assert (2 * q) * (2 * q) == 4 * (q * q);
    assert (2 * q + 2) * (2 * q + 2) == 4 * ((q + 1) * (q + 1));
    assert m + 1 <= (q + 1) * (q + 1);
  }

  /** `calculateLevel`: 1 for a negative score, otherwise
      `floor(sqrt(xp / 50))`, i.e. the largest L with 50 * L * L <= xp. */
  function Level(xp: int): (level: nat)
    ensures xp < 0 ==> level == 1
    ensures xp >= 0 ==> XP_SCALE * level * level <= xp < XP_SCALE * (level + 1) * (level + 1)
  {
    if xp < 0 then 1
    else
      var l := Isqrt(xp / 50);
      LevelFromRoot(xp, l);
      l
  }

  lemma LevelFromRoot(xp: nat, l: nat)
    requires l * l <= xp / 50 < (l + 1) * (l + 1)
    ensures XP_SCALE * l * l <= xp < XP_SCALE * (l + 1) * (l + 1)
  {
    var s, t, m := l * l, (l + 1) * (l + 1), xp / 50;
    assert 50 * m <= xp < 50 * m + 50;
    assert XP_SCALE * l * l == 50 * s;
    assert XP_SCALE * (l + 1) * (l + 1) == 50 * t;
  }

  /** `calculateXPForNextLevel`. */
  function XpForNextLevel(level: int): int
  {
    XP_SCALE * (level + 1) * (level + 1)
  }

  /** `calculateXPForCurrentLevel`. */
  function XpForCurrentLevel(level: int): int
  {
    XP_SCALE * level * level
  }

  /** The thresholds of the level bracket the score it was derived from. */
  lemma LevelBracket(xp: int)
    requires xp >= 0
    ensures XpForCurrentLevel(Level(xp)) <= xp < XpForNextLevel(Level(xp))
  {
  }

  /** Level is the unique L whose bracket holds xp. */
  lemma LevelUnique(xp: int, l: nat)
    requires XpForCurrentLevel(l) <= xp < XpForNextLevel(l)
    ensures Level(xp) == l
  {
    var sl := l * l;
    assert XpForCurrentLevel(l) == XP_SCALE * sl;
    var k := Level(xp);
    ScaledSquareOrder(xp, k, l);
    ScaledSquareOrder(xp, l, k);
  }

  /** A score inside 50 a^2 <= x < 50 (b + 1)^2 forces a <= b. */
  lemma ScaledSquareOrder(x: int, a: nat, b: nat)
    requires XP_SCALE * a * a <= x < XP_SCALE * (b + 1) * (b + 1)
    ensures a <= b
  {
    var p, q := a * a, (b + 1) * (b + 1);
    assert XP_SCALE * a * a == XP_SCALE * p;
    assert XP_SCALE * (b + 1) * (b + 1) == XP_SCALE * q;
    SquareOrder(a, b);
  }

  lemma SquareMonotone(a: nat, b: nat)
    requires a <= b
    ensures a * a <= b * b
  {
    assert a * a <= a * b <= b * b;
  }

  /** A square below (b + 1) squared has its root at most b. */
  lemma SquareOrder(a: nat, b: nat)
    requires a * a < (b + 1) * (b + 1)
    ensures a <= b
  {
    if b < a {
      SquareMonotone(b + 1, a);
    }
  }

  lemma LevelAtZero()
    ensures Level(0) == 0
  {
  }

  /** Level never decreases as the (non-negative) score grows. */
  lemma LevelMonotone(x: int, y: int)
    requires 0 <= x <= y
    ensures Level(x) <= Level(y)
  {
    var a, b := Level(x), Level(y);
    if a > b {
      SquareMonotone(b + 1, a);
    }
  }

  /** The bracket of a level is `50 * (2L + 1)` wide, never zero. */
  lemma LevelGap(level: int)
    ensures XpForNextLevel(level) - XpForCurrentLevel(level) == XP_SCALE * (2 * level + 1)
    ensures level >= 0 ==> XpForNextLevel(level) - XpForCurrentLevel(level) > 0
  {
  }

  /** `xpProgress`: the share of the current bracket reached, as a percentage
      clamped to [0, 100]. */
  function XpProgress(xp: int): (p: real)
    ensures 0.0 <= p <= 100.0
    ensures xp >= 0 ==>
      p < 100.0 &&
      p == (xp - XpForCurrentLevel(Level(xp))) as real * 100.0
           / (XpForNextLevel(Level(xp)) - XpForCurrentLevel(Level(xp))) as real
    ensures xp < 0 ==> p == 0.0
  {
    var level := Level(xp);
    var next := XpForNextLevel(level);
    var base := XpForCurrentLevel(level);
    LevelGap(level);
    var raw := (xp - base) as real * 100.0 / (next - base) as real;
    RawProgressRange(xp);
    Min(100.0, Max(0.0, raw))
  }

  function Min(a: real, b: real): real { if a <= b then a else b }
  function Max(a: real, b: real): real { if a >= b then a else b }

  /** Inside the bracket the raw percentage is in [0, 100); for a negative
      score (level 1, bracket [50, 200)) it is negative. */
  lemma RawProgressRange(xp: int)
    ensures var l := Level(xp);
      var raw := (xp - XpForCurrentLevel(l)) as real * 100.0 / (XpForNextLevel(l) - XpForCurrentLevel(l)) as real;
      (xp >= 0 ==> 0.0 <= raw < 100.0) && (xp < 0 ==> raw < 0.0)
  {
    var l := Level(xp);
    LevelGap(l);
    if xp >= 0 {
      FractionBelowOne(xp - XpForCurrentLevel(l), XpForNextLevel(l) - XpForCurrentLevel(l));
    } else {
      NegativeXpProgress(xp);
    }
  }

  lemma FractionBelowOne(a: int, b: int)
    requires 0 <= a < b
    ensures 0.0 <= a as real * 100.0 / b as real < 100.0
  {
    var f := a as real * 100.0 / b as real;
    assert f * b as real == a as real * 100.0;
  }

  /** For a negative score the raw fraction is negative, so the clamp yields 0. */
  lemma NegativeXpProgress(xp: int)
    requires xp < 0
    ensures (xp - XpForCurrentLevel(Level(xp))) as real * 100.0
            / (XpForNextLevel(Level(xp)) - XpForCurrentLevel(Level(xp))) as real < 0.0
  {
    assert Level(xp) == 1;
    assert XpForCurrentLevel(1) == 50 && XpForNextLevel(1) == 200;
  }

  // ---------------------------------------------------------------------
  // Skill ranks

  /** The titles `getSkillRank` hands out, lowest first. */
  datatype Rank = Novice | Apprentice | Adept | Expert | Master | Legendary

  function RankOrder(r: Rank): nat
  {
    match r
    case Novice => 0
    case Apprentice => 1
    case Adept => 2
    case Expert => 3
    case Master => 4
    case Legendary => 5
  }

  /** The lowest skill level that earns each rank. */
  function MinLevel(r: Rank): int
  {
    match r
    case Novice => 0
    case Apprentice => 20
    case Adept => 40
    case Expert => 60
    case Master => 75
    case Legendary => 90
  }

  /** `getSkillRank(level).title`. */
  function SkillRank(level: int): Rank
  {
    if level >= 90 then Legendary
    else if level >= 75 then Master
    else if level >= 60 then Expert
    else if level >= 40 then Adept
    else if level >= 20 then Apprentice
    else Novice
  }

  /** The rank of a level is the highest rank whose threshold the level
      reaches (Novice below every threshold, including negative levels). */
  lemma SkillRankIsHighestReached(level: int, r: Rank)
    ensures SkillRank(level) == Novice || MinLevel(SkillRank(level)) <= level
    ensures MinLevel(r) <= level ==> RankOrder(r) <= RankOrder(SkillRank(level))
    ensures RankOrder(SkillRank(level)) > RankOrder(r) ==> MinLevel(SkillRank(level)) > MinLevel(r)
  {
  }

  /** A higher skill level never has a lower rank. */
  lemma SkillRankMonotone(a: int, b: int)
    requires a <= b
    ensures RankOrder(SkillRank(a)) <= RankOrder(SkillRank(b))
  {
  }

  // ---------------------------------------------------------------------
  // Worked example

  /** 100 commits, 5 repositories and 10 stars score 10 + 25 + 2 = 37 points,
      still level 0; the portfolio's projects add only 0.20. */
  lemma BaselineExample()
    ensures CurrentXp(100, 5, 10, []) == 37
    ensures CurrentXp(100, 5, 10, PROJECTS) == 37
    ensures Level(37) == 0
    ensures XpForNextLevel(0) == 50
  {
    PortfolioProjectsXp();
  }
}
