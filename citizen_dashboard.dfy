/** The citizen dashboard: observation totals by category, and the level
    progress bar, the points still needed for the next level and the streak
    shown from the gamification profile. */
module CitizenDashboard {
  import opened Wrappers
  import opened Observations

  /** Experience points per level. */
  const XpPerLevel: nat := 500

  /** The gamification profile as the server sends it. `currentLevel` is
      shown verbatim and never recomputed. */
  datatype Profile = Profile(
    userId: int,
    currentXp: int,
    currentLevel: int,
    streakDays: Option<int>,
    badges: seq<string>)

  /** JavaScript's `%`: the remainder has the sign of the dividend. */
  function JsRemainder(a: int, b: int): (r: int)
    requires b > 0
    ensures -b < r < b
    ensures a >= 0 ==> r >= 0
    ensures a < 0 ==> r <= 0
    ensures (a - r) % b == 0
  {
    if a >= 0 then
      RemainderFacts(a, b);
      a % b
    else
      RemainderFacts(-a, b);
      -((-a) % b)
  }

  /** Removing the remainder of a non-negative number leaves a multiple of
      `b`, and so does negating that difference. */
  lemma RemainderFacts(x: int, b: int)
    requires x >= 0 && b > 0
    ensures (x - x % b) % b == 0
    ensures (-(x - x % b)) % b == 0
  {
    var q := x / b;
    assert x - x % b == b * q;
    MultipleModIsZero(q, b);
    MultipleModIsZero(-q, b);
    assert -(b * q) == b * (-q);
  }

  /** A multiple of `b` leaves no remainder. */
  lemma MultipleModIsZero(k: int, b: int)
    requires b > 0
    ensures (b * k) % b == 0
  {
    var x := b * k;
    var d := k - x / b;
    assert x == b * (x / b) + x % b;
    assert b * d == x % b;
    if d > 0 {
      assert b * d == b + b * (d - 1);
    } else if d < 0 {
      assert b * d == -b + b * (d + 1);
    }
  }

  function Min(x: real, y: real): real
  {
    if x <= y then x else y
  }

  /** `levelProgress`: the width of the progress bar, in percent. */
  function LevelProgress(g: Option<Profile>): (r: real)
    ensures g.None? ==> r == 0.0
    ensures g.Some? && g.value.currentXp >= 0 ==>
      r == (g.value.currentXp % XpPerLevel) as real / 5.0 && 0.0 <= r < 100.0
  {
    match g
    case None => 0.0
    case Some(p) =>
      Min(JsRemainder(p.currentXp, XpPerLevel) as real / XpPerLevel as real * 100.0, 100.0)
  }

  /** The "XP to next level" figure. */
  function XpToNextLevel(xp: int): (r: int)
    ensures (xp + r) % XpPerLevel == 0
    ensures xp >= 0 ==> 1 <= r <= XpPerLevel
    ensures xp < 0 ==> XpPerLevel <= r < 2 * XpPerLevel
  {
    XpPerLevel - JsRemainder(xp, XpPerLevel)
  }

  /** For non-negative XP the figure is in [1, 500], and adding it to the
      XP lands exactly on the next multiple of 500; it is 500 exactly when
      the XP is itself a multiple of 500. */
  lemma XpToNextLevelReachesNextLevel(xp: int)
    requires xp >= 0
    ensures 1 <= XpToNextLevel(xp) <= XpPerLevel
    ensures (xp + XpToNextLevel(xp)) % XpPerLevel == 0
    ensures (xp + XpToNextLevel(xp)) / XpPerLevel == xp / XpPerLevel + 1
    ensures XpToNextLevel(xp) == XpPerLevel <==> xp % XpPerLevel == 0
  {
    assert xp == XpPerLevel * (xp / XpPerLevel) + xp % XpPerLevel;
    assert xp + XpToNextLevel(xp) == XpPerLevel * (xp / XpPerLevel + 1);
  }

  /** The bar and the figure under it agree: the percentage done plus the
      percentage still to earn is 100. */
  lemma ProgressAndRemainingAgree(p: Profile)
    requires p.currentXp >= 0
    ensures LevelProgress(Some(p)) + XpToNextLevel(p.currentXp) as real / 5.0 == 100.0
  {
  }

  /** 1250 XP is half way through a level with 250 to go; 1000 XP has just
      reached a level, so the bar is empty and 500 remain. */
  lemma ProgressionExamples(p: Profile, q: Profile)
    requires p.currentXp == 1250 && q.currentXp == 1000
    ensures LevelProgress(Some(p)) == 50.0 && XpToNextLevel(p.currentXp) == 250
    ensures LevelProgress(Some(q)) == 0.0 && XpToNextLevel(q.currentXp) == 500
  {
  }

  /** `gamification?.streak_days || 0`. */
  function Streak(g: Option<Profile>): (r: int)
    ensures r == 0 <==> g.None? || g.value.streakDays.None? || g.value.streakDays.value == 0
    ensures r != 0 ==> r == g.value.streakDays.value
  {
    match g
    case None => 0
    case Some(p) =>
      match p.streakDays
      case None => 0
      case Some(d) => if d == 0 then 0 else d
  }

  // ----- observation statistics -----

  /** The dashboard's `stats` state. */
  datatype Stats = Stats(totalObservations: nat, byType: map<string, nat>, projects: nat)

  function Buckets(): set<string>
  {
    {"water_quality", "wildlife", "plant", "air_quality"}
  }

  const ZeroCounts: map<string, nat> :=
    map["water_quality" := 0, "wildlife" := 0, "plant" := 0, "air_quality" := 0]

  /** Before any fetch completes: nothing counted, three projects. */
  const InitialStats: Stats := Stats(0, ZeroCounts, 3)

  function BucketTotal(byType: map<string, nat>): nat
    requires Buckets() <= byType.Keys
  {
    byType["water_quality"] + byType["wildlife"] + byType["plant"] + byType["air_quality"]
  }

  /** The `typeCounts` loop: one bucket per known category, each counting
      exactly the records of its type; other records are skipped. */
  method TypeCounts(obs: seq<Observation>) returns (typeCounts: map<string, nat>)
    ensures typeCounts.Keys == Buckets()
    ensures forall c: Category :: typeCounts[c.Key()] == CountType(obs, c.Key())
    ensures BucketTotal(typeCounts) <= |obs|
    ensures BucketTotal(typeCounts) == |obs| <==> forall i :: 0 <= i < |obs| ==> IsKnown(obs[i].kind)
  {
    typeCounts := Tally(obs, ZeroCounts);
    forall c: Category ensures c.Key() in ZeroCounts && ZeroCounts[c.Key()] == 0 {
    }
    assert BucketTotal(typeCounts) == BucketSum(obs);
    BucketsConserve(obs);
  }

  /** The dashboard's local state. */
  class Dashboard {
    var stats: Stats
    var gamification: Option<Profile>

    /** The buckets never add up to more than the total. */
    ghost predicate Valid()
      reads this
    {
      && stats.byType.Keys == Buckets()
      && BucketTotal(stats.byType) <= stats.totalObservations
    }

    constructor ()
      ensures Valid()
      ensures stats == InitialStats && gamification == None
    {
      stats := InitialStats;
      gamification := None;
    }

    /** The observation fetch completed with `obs`. */
    method ObservationsLoaded(obs: seq<Observation>)
      modifies this`stats
      ensures Valid()
      ensures stats.totalObservations == |obs| && stats.projects == 3
      ensures forall c: Category :: stats.byType[c.Key()] == CountType(obs, c.Key())
      ensures BucketTotal(stats.byType) == stats.totalObservations <==>
        forall i :: 0 <= i < |obs| ==> IsKnown(obs[i].kind)
    {
      var typeCounts := TypeCounts(obs);
      stats := Stats(|obs|, typeCounts, 3);
    }

    /** The profile fetch completed with `p`. */
    method ProfileLoaded(p: Profile)
      modifies this`gamification
      ensures gamification == Some(p)
    {
      gamification := Some(p);
    }
  }
}
