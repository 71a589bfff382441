/**
 * The deprecated helpers of depreciated/stream_tools.py. Its tweets and
 * aggregated-user updates are line for line those of utils/stream_tools.py
 * and are modelled once, in MetricsTables; what is its own is
 * update_engagement_table, the upsert over the four-counter engagement
 * table.
 */
module DeprecatedStreamTools {
  import TrackedTable

  /** The engagement-table columns the upsert maxes: Favorites, Retweets, Replies, Impressions. */
  const EngagementCounterColumns: nat := 4

  /**
   * update_engagement_table: the same upsert as the leaderboard's, with no
   * Rank or Global_Reach column. A new user is appended (and written); a
   * known user's first row takes the per-counter maximum and the observed
   * descriptive values, with no write.
   */
  method UpdateEngagementTable(table: seq<TrackedTable.TrackedRow>, name: string, username: string,
                               likes: int, retweets: int, replies: int, impressions: int,
                               pfpUrl: string, desc: string, url: string)
    returns (result: seq<TrackedTable.TrackedRow>, wrote: bool)
    requires TrackedTable.WellFormed(table, EngagementCounterColumns)
    ensures var obs := TrackedTable.Observation(name, username, [likes, retweets, replies, impressions], pfpUrl, desc, url);
            (result, wrote) == TrackedTable.Upserted(table, obs)
    ensures wrote <==> TrackedTable.FindUser(table, username).None?
    ensures |table| == 0 ==> |result| == 1 && result[0].index == username
    ensures TrackedTable.WellFormed(result, EngagementCounterColumns)
    ensures |result| >= |table|
    ensures forall j, k :: 0 <= j < |table| && 0 <= k < EngagementCounterColumns ==>
      TrackedTable.Dominates(result[j].counters[k], table[j].counters[k])
  {
    var obs := TrackedTable.Observation(name, username, [likes, retweets, replies, impressions], pfpUrl, desc, url);
    result, wrote := TrackedTable.Upsert(table, obs);
    TrackedTable.UpsertKeepsOthersAndRaises(table, obs);
  }
}
