/** The record both leaderboard flows (src/ai/flows) take and return: a
    name and a count. */
module FlowSchema {

  datatype RankedUser = RankedUser(name: string, zikrCount: int)

  function ZikrCountOf(u: RankedUser): int {
    u.zikrCount
  }
}
