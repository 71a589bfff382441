/**
 * The table and rule helpers of utils/stream_tools.py that the current
 * stream driver calls: the tracked-user upsert over the six-counter
 * leaderboard table, and the pairing of stream rules with tags that
 * set_rules sends to the stream endpoint.
 *
 * The tweets and aggregated-user tables are in MetricsTables, the upsert
 * itself in TrackedTable; both are shared with the deprecated copy.
 */
module StreamTools {
  import opened Wrappers
  import TrackedTable
  import ConfigState

  /** The leaderboard columns the upsert maxes: Favorites, Retweets, Replies, Impressions, Rank, Global_Reach. */
  const PfpCounterColumns: nat := 6

  /**
   * update_pfp_tracked_table: upsert one user's observed values into the
   * leaderboard table. `wrote` is true exactly when the source issues its
   * `to_sql` write, which it does only for a new row; an existing user's
   * row changes in the returned table alone.
   */
  method UpdatePfpTrackedTable(table: seq<TrackedTable.TrackedRow>, name: string, username: string,
                               likes: int, retweets: int, replies: int, impressions: int,
                               rank: int, globalReach: int, pfpUrl: string, desc: string, url: string)
    returns (result: seq<TrackedTable.TrackedRow>, wrote: bool)
    requires TrackedTable.WellFormed(table, PfpCounterColumns)
    ensures var obs := TrackedTable.Observation(name, username, [likes, retweets, replies, impressions, rank, globalReach],
                                                pfpUrl, desc, url);
            (result, wrote) == TrackedTable.Upserted(table, obs)
    ensures wrote <==> TrackedTable.FindUser(table, username).None?
    ensures wrote ==> |result| == |table| + 1 && result[..|table|] == table && result[|table|].index == username
    ensures !wrote ==> |result| == |table|
    ensures TrackedTable.WellFormed(result, PfpCounterColumns)
  {
    var obs := TrackedTable.Observation(name, username, [likes, retweets, replies, impressions, rank, globalReach],
                                        pfpUrl, desc, url);
    result, wrote := TrackedTable.Upsert(table, obs);
    TrackedTable.UpsertKeepsOthersAndRaises(table, obs);
  }

  /** One entry of the payload set_rules posts: a rule and the tag it is filed under. */
  datatype StreamRule = StreamRule(value: string, tag: string)

  /**
   * Why set_rules or update_rules stopped early: the pairing's IndexError
   * (`tags[my_rules.index(rule)]` ran past the end of the tag list), or the
   * exception one of the rule requests raises on an unexpected status;
   * `request` names the helper that raised ("get_rules", "delete_all_rules")
   * or "add_rules" for the final POST of set_rules.
   */
  datatype RuleError = TagIndexOutOfRange(rule: string) | HttpError(request: string)

  /**
   * The answers of one `delete_all_rules(get_rules())` round: whether the
   * rules GET answered 200, whether its answer listed any rules (a "data"
   * entry), and whether the delete POST answered 200.
   */
  datatype Cleanup = Cleanup(listed: bool, hasRules: bool, deleted: bool)

  /**
   * The exception a `delete_all_rules(get_rules())` round raises, if any:
   * get_rules raises on any status but 200; delete_all_rules returns early
   * when nothing is listed and raises when its POST is not answered 200.
   */
  function CleanupError(c: Cleanup): (r: Option<RuleError>)
    ensures r == Some(HttpError("get_rules")) <==> !c.listed
    ensures r == Some(HttpError("delete_all_rules")) <==> c.listed && c.hasRules && !c.deleted
    ensures r.None? <==> c.listed && (!c.hasRules || c.deleted)
  {
    if !c.listed then Some(HttpError("get_rules"))
    else if c.hasRules && !c.deleted then Some(HttpError("delete_all_rules"))
    else None
  }

  /**
   * The payload loop of set_rules: every rule is paired with the tag at the
   * position of the rule's FIRST occurrence in the rule list (that is what
   * `list.index` returns), so a repeated rule repeats its first tag. A rule
   * whose first position has no tag raises IndexError.
   */
  method PairRules(myRules: seq<string>, tags: seq<string>) returns (r: Result<seq<StreamRule>, RuleError>)
    ensures r.Ok? <==> forall i :: 0 <= i < |myRules| ==> ConfigState.IndexOf(myRules, myRules[i]) < |tags|
    ensures r.Ok? ==> |r.value| == |myRules|
    ensures r.Ok? ==> forall i :: 0 <= i < |myRules| ==>
      r.value[i] == StreamRule(myRules[i], tags[ConfigState.IndexOf(myRules, myRules[i])])
    ensures r.Err? ==> r.error.TagIndexOutOfRange? && r.error.rule in myRules
  {
    var rules: seq<StreamRule> := [];
    for i := 0 to |myRules|
      invariant |rules| == i
      invariant forall j :: 0 <= j < i ==> ConfigState.IndexOf(myRules, myRules[j]) < |tags|
      invariant forall j :: 0 <= j < i ==>
        rules[j] == StreamRule(myRules[j], tags[ConfigState.IndexOf(myRules, myRules[j])])
    {
      var position := ConfigState.IndexOf(myRules, myRules[i]);
      if position >= |tags| {
        return Err(TagIndexOutOfRange(myRules[i]));
      }
      rules := rules + [StreamRule(myRules[i], tags[position])];
    }
    return Ok(rules);
  }

  /** With no repeated rule, `list.index` finds each rule at its own position. */
  lemma FirstIndexOfDistinct(xs: seq<string>, i: nat)
    requires i < |xs|
    requires forall j, k :: 0 <= j < k < |xs| ==> xs[j] != xs[k]
    ensures ConfigState.IndexOf(xs, xs[i]) == i
  {
  }

  /**
   * When the rules are distinct and the tag list is at least as long, the
   * pairing is positional: rule i is filed under tag i.
   */
  lemma PairingIsPositionalForDistinctRules(myRules: seq<string>, tags: seq<string>, i: nat)
    requires i < |myRules| <= |tags|
    requires forall j, k :: 0 <= j < k < |myRules| ==> myRules[j] != myRules[k]
    ensures tags[ConfigState.IndexOf(myRules, myRules[i])] == tags[i]
  {
    FirstIndexOfDistinct(myRules, i);
  }

  /**
   * A rule listed twice gets its first tag both times, whatever tag sits at
   * its second position: the pairing depends on the rule's value only.
   */
  lemma RepeatedRuleKeepsFirstTag(myRules: seq<string>, i: nat, j: nat)
    requires i < j < |myRules| && myRules[i] == myRules[j]
    ensures ConfigState.IndexOf(myRules, myRules[j]) <= i
  {
  }

  /**
   * What one set_rules call yields for the rules and tags it read: the
   * result `r` and the rise `restarts` of the restart count. The pairing
   * runs first; then the stream GET (`streamAnswered` is its status being
   * 200, and it never raises) and get_rules; a stream that did not answer
   * has its listed rules deleted and counts one restart; last the add POST,
   * which must answer 201.
   */
  ghost predicate SetRulesOutcome(myRules: seq<string>, tags: seq<string>, streamAnswered: bool, cleanup: Cleanup,
                                  added: bool, r: Result<seq<StreamRule>, RuleError>, restarts: int)
  {
    var tagged := forall i :: 0 <= i < |myRules| ==> ConfigState.IndexOf(myRules, myRules[i]) < |tags|;
    var cleaned := streamAnswered || !cleanup.hasRules || cleanup.deleted;
    && (!tagged ==> r.Err? && r.error.TagIndexOutOfRange? && r.error.rule in myRules && restarts == 0)
    && (tagged && !cleanup.listed ==> r == Err(HttpError("get_rules")) && restarts == 0)
    && (tagged && cleanup.listed && !cleaned ==> r == Err(HttpError("delete_all_rules")) && restarts == 0)
    && (tagged && cleanup.listed && cleaned ==>
          && restarts == (if streamAnswered then 0 else 1)
          && (!added ==> r == Err(HttpError("add_rules")))
          && (added ==> r.Ok? && |r.value| == |myRules|
                        && forall i :: 0 <= i < |myRules| ==>
                             r.value[i] == StreamRule(myRules[i], tags[ConfigState.IndexOf(myRules, myRules[i])])))
  }

  /**
   * set_rules: when the configuration asks for an update, take its rules
   * and tags and lower the flag at once; otherwise the payload is empty.
   * `streamAnswered`, `cleanup` and `added` are the answers of the rule
   * requests, in the order SetRulesOutcome describes.
   */
  method SetRules(config: ConfigState.Config, streamAnswered: bool, cleanup: Cleanup, added: bool)
    returns (r: Result<seq<StreamRule>, RuleError>)
    modifies config`updateFlag, config`recount
    ensures !config.updateFlag
    ensures old(config.updateFlag) ==>
      SetRulesOutcome(config.rules, config.tags, streamAnswered, cleanup, added, r, config.recount - old(config.recount))
    ensures !old(config.updateFlag) ==>
      SetRulesOutcome([], [], streamAnswered, cleanup, added, r, config.recount - old(config.recount))
    ensures !old(config.updateFlag) && added && cleanup.listed && (streamAnswered || !cleanup.hasRules || cleanup.deleted) ==>
      r == Ok([])
  {
    var myRules: seq<string> := [];
    var tags: seq<string> := [];
    if config.updateFlag {
      myRules := config.rules;
      tags := config.tags;
      config.updateFlag := false;
    }
    r := PairRules(myRules, tags);
    if r.Err? {
      return;
    }
    if !cleanup.listed {
      return Err(HttpError("get_rules"));
    }
    if !streamAnswered {
      if cleanup.hasRules && !cleanup.deleted {
        return Err(HttpError("delete_all_rules"));
      }
      config.recount := config.recount + 1;
    }
    if !added {
      return Err(HttpError("add_rules"));
    }
    config.updateFlag := false;
  }

  /**
   * update_rules: with the flag up, clear the stream's rules (`first`) and
   * then run set_rules; `None` when the flag was down. An exception from the
   * clearing round leaves the flag up, since set_rules never ran.
   */
  method UpdateRules(config: ConfigState.Config, first: Cleanup, streamAnswered: bool, cleanup: Cleanup, added: bool)
    returns (sent: Option<Result<seq<StreamRule>, RuleError>>)
    modifies config`updateFlag, config`recount
    ensures sent.None? <==> !old(config.updateFlag)
    ensures sent.None? ==> !config.updateFlag && config.recount == old(config.recount)
    ensures old(config.updateFlag) && CleanupError(first).Some? ==>
      sent == Some(Err(CleanupError(first).value)) && config.updateFlag && config.recount == old(config.recount)
    ensures old(config.updateFlag) && CleanupError(first).None? ==>
      && sent.Some? && !config.updateFlag
      && SetRulesOutcome(config.rules, config.tags, streamAnswered, cleanup, added, sent.value,
                         config.recount - old(config.recount))
  {
    sent := None;
    if config.updateFlag {
      var failed := CleanupError(first);
      if failed.Some? {
        return Some(Err(failed.value));
      }
      var r := SetRules(config, streamAnswered, cleanup, added);
      sent := Some(r);
      config.updateFlag := false;
    }
  }
}
