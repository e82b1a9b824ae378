/** Filters/AchievementGrouping.cs: the two unlock-state queries over a stored list. The
    stored list is a value here, so neither query can change it. */
module Grouping {
  import opened Wrappers
  import opened ApiModels

  /** `r` is `s` with some elements left out and the rest kept in their order. */
  ghost predicate IsSubsequence<T>(r: seq<T>, s: seq<T>)
    decreases |s|
  {
    r == [] || (s != [] && ((r[0] == s[0] && IsSubsequence(r[1..], s[1..])) || IsSubsequence(r, s[1..])))
  }

  /** Every list is a subsequence of itself. */
  lemma {:induction false} SubsequenceReflexive<T>(s: seq<T>)
    ensures IsSubsequence(s, s)
  {
    if s != [] {
      SubsequenceReflexive(s[1..]);
    }
  }

  /** LINQ `Where(p).ToList()`. */
  function Where<T(!new)>(s: seq<T>, p: T -> bool): (r: seq<T>)
    ensures forall x :: x in r <==> x in s && p(x)
    ensures forall i :: 0 <= i < |r| ==> p(r[i])
    ensures IsSubsequence(r, s)
    ensures |r| <= |s|
    decreases |s|
  {
    if s == [] then []
    else if p(s[0]) then [s[0]] + Where(s[1..], p)
    else Where(s[1..], p)
  }

  /** Two complementary filters split a list: every element goes to exactly one side, so
      the lengths add up and the multisets add up to the input's. */
  lemma {:induction false} WherePartition<T(!new)>(s: seq<T>, p: T -> bool, q: T -> bool)
    requires forall x :: q(x) == !p(x)
    ensures |Where(s, p)| + |Where(s, q)| == |s|
    ensures multiset(Where(s, p)) + multiset(Where(s, q)) == multiset(s)
  {
    if s != [] {
      WherePartition(s[1..], p, q);
      assert s == [s[0]] + s[1..];
    }
  }

  /** Filtering a list whose elements all pass keeps it whole. */
  lemma {:induction false} WhereAllPass<T(!new)>(s: seq<T>, p: T -> bool)
    requires forall i :: 0 <= i < |s| ==> p(s[i])
    ensures Where(s, p) == s
  {
    if s != [] {
      WhereAllPass(s[1..], p);
    }
  }

  predicate IsUnlocked(a: GameAchievement) {
    a.IsUnlocked == Some(true)
  }

  predicate IsNotUnlocked(a: GameAchievement) {
    a.IsUnlocked != Some(true)
  }

  /** `GetUnlockedAchievements`: exactly the entries whose flag is true, in order. */
  function GetUnlockedAchievements(achievements: seq<GameAchievement>): (r: seq<GameAchievement>)
    ensures forall a :: a in r <==> a in achievements && a.IsUnlocked == Some(true)
    ensures IsSubsequence(r, achievements)
  {
    Where(achievements, IsUnlocked)
  }

  /** `GetLockedAchievements`: exactly the entries whose flag is false or null, in order. */
  function GetLockedAchievements(achievements: seq<GameAchievement>): (r: seq<GameAchievement>)
    ensures forall a :: a in r <==> a in achievements && (a.IsUnlocked == None || a.IsUnlocked == Some(false))
    ensures IsSubsequence(r, achievements)
  {
    var r := Where(achievements, IsNotUnlocked);
    assert forall a :: IsNotUnlocked(a) ==> a.IsUnlocked == None || a.IsUnlocked == Some(false) by {
      forall a | IsNotUnlocked(a) ensures a.IsUnlocked == None || a.IsUnlocked == Some(false) {
        if a.IsUnlocked.Some? { assert a.IsUnlocked.value == false; }
      }
    }
    r
  }

  /** The two queries partition the list: lengths and multisets add up, and each entry is
      on exactly one side. */
  lemma UnlockedLockedPartition(achievements: seq<GameAchievement>)
    ensures |GetUnlockedAchievements(achievements)| + |GetLockedAchievements(achievements)| == |achievements|
    ensures multiset(GetUnlockedAchievements(achievements)) + multiset(GetLockedAchievements(achievements))
         == multiset(achievements)
    ensures forall a :: a in achievements ==>
              (a in GetUnlockedAchievements(achievements)) != (a in GetLockedAchievements(achievements))
  {
    WherePartition(achievements, IsUnlocked, IsNotUnlocked);
  }

  /** Applying either query to its own output changes nothing. */
  lemma FiltersIdempotent(achievements: seq<GameAchievement>)
    ensures GetUnlockedAchievements(GetUnlockedAchievements(achievements)) == GetUnlockedAchievements(achievements)
    ensures GetLockedAchievements(GetLockedAchievements(achievements)) == GetLockedAchievements(achievements)
  {
    WhereAllPass(GetUnlockedAchievements(achievements), IsUnlocked);
    WhereAllPass(GetLockedAchievements(achievements), IsNotUnlocked);
  }
}
