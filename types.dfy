/** Records, unions and constants shared by the portfolio's progression
    and activity code (types.ts). */
module Types {

  datatype Option<T> = None | Some(value: T)

  /** `Project['difficulty']`: the four difficulty tiers a project can have. */
  datatype Difficulty = Easy | Medium | Hard | Nightmare

  /** The tiers in the order of the union, used to state that the weights grow. */
  function Tier(d: Difficulty): (t: nat)
    ensures t < 4
  {
    match d
    case Easy => 0
    case Medium => 1
    case Hard => 2
    case Nightmare => 3
  }

  /** `DIFFICULTY_XP`, in hundredths of an XP point (0.01, 0.03, 0.06, 0.1). */
  const DIFFICULTY_XP: map<Difficulty, nat> :=
    map[Easy := 1, Medium := 3, Hard := 6, Nightmare := 10]

  /** The table has exactly the four keys of the union, so every lookup hits. */
  lemma DifficultyTableIsTotal()
    ensures DIFFICULTY_XP.Keys == {Easy, Medium, Hard, Nightmare}
    ensures forall d: Difficulty :: d in DIFFICULTY_XP
  {
    forall d: Difficulty ensures d in DIFFICULTY_XP {
      match d
      case Easy =>
      case Medium =>
      case Hard =>
      case Nightmare =>
    }
  }

  /** `DIFFICULTY_XP[d]`: between 0.01 and 0.1 points. */
  function DifficultyXp(d: Difficulty): (h: nat)
    ensures 1 <= h <= 10
  {
    DifficultyTableIsTotal();
    DIFFICULTY_XP[d]
  }

  /** Every weight is positive, and a harder tier is worth strictly more. */
  lemma DifficultyXpIncreasing(a: Difficulty, b: Difficulty)
    ensures DifficultyXp(a) > 0
    ensures Tier(a) < Tier(b) ==> DifficultyXp(a) < DifficultyXp(b)
    ensures Tier(a) == Tier(b) ==> a == b
  {
  }

  /** `ContributionDay`: a calendar date key ("YYYY-MM-DD") and its activity count. */
  datatype ContributionDay = ContributionDay(date: string, count: int)

  /** `GithubStats`. `lastUpdated` is the snapshot time as a millisecond
      timestamp (the source stores its ISO 8601 text and parses it where it
      compares it). */
  datatype GithubStats = GithubStats(
    totalCommits: int,
    totalRepos: int,
    totalStars: int,
    monthlyStreak: bool,
    lastUpdated: int,
    history: seq<ContributionDay>)
}
