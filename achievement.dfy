/** The enriched achievement entity (Models/Achievement.cs). */
module AchievementModel {
  import opened Wrappers
  import opened ApiModels

  /** `Achievement`; the two DLC-name lists are nullable, because the mapper may assign null
      to them. */
  datatype Achievement = Achievement(
    Achieved: bool,
    Name: string,
    Description: string,
    Countries: set<string>,
    IsRequiredDlc: bool,
    AllRequiredDlcNames: Option<seq<string>>,
    OneRequiredOfDlcNames: Option<seq<string>>)

  /** `new Achievement(achievement)`: the unlock flag collapses null into false, name and
      description are copied, and the remaining properties take their initialisers. */
  function FromGameAchievement(achievement: GameAchievement): (r: Achievement)
    ensures r.Achieved <==> achievement.IsUnlocked == Some(true)
    ensures !r.Achieved <==> achievement.IsUnlocked in {None, Some(false)}
    ensures r.Name == achievement.Name && r.Description == achievement.Description
    ensures r.Countries == {} && !r.IsRequiredDlc
    ensures r.AllRequiredDlcNames == Some([]) && r.OneRequiredOfDlcNames == Some([])
  {
    Achievement(
      achievement.IsUnlocked.GetOr(false),
      achievement.Name,
      achievement.Description,
      {},
      false,
      Some([]),
      Some([]))
  }
}
