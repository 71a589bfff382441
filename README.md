# Community gamification core, modelled in Dafny

The system watches a Twitter filtered stream. It works out whether the
profile picture of each engaging user resembles one of two NFT
collections, y00ts and degods, and keeps per-user and per-tweet
engagement tables for a leaderboard. Around that core sit four more
pieces:

- a configuration object that queues stream rules and tags;
- a rate limiter for the API;
- the collection-membership helpers of the old NFTInspect integration;
- keyword and question counting over Discord messages.

This project models that core and proves properties of it. It has one
module per source file, plus a few shared modules:

| module | models |
|---|---|
| `Wrappers` | `Option`, `Result`, `Max`, `Min` |
| `TrackedTable` | the upsert shared by `update_pfp_tracked_table` (six counters) and `update_engagement_table` (four counters) |
| `MetricsTables` | `update_tweets_table` and `update_aggregated_metrics` |
| `StreamTools` | `utils/stream_tools.py`: the leaderboard upsert, `set_rules`, `update_rules` |
| `DeprecatedStreamTools` | `depreciated/stream_tools.py`: the engagement-table upsert |
| `PfpCheck` | `check_pfp`'s tier decision |
| `Membership` | the per-line membership reduction of both stream drivers |
| `ConfigState` | the `Config` class |
| `NftInspect` | `depreciated/nft_inspect_tools.py` |
| `Throttling` | both request throttles |
| `DiscordTools` | `get_questions` and `get_keywords` |

The code is modelled in the form the source has:

- Objects and module-level lists that the source updates in place are classes: `Config`, the throttles, the stream driver's state, and the message log.
- A data frame passed in and updated in place is a `Frame`.
- Loops in the source are methods with loop invariants. Each method is proved equal to a specification function, and the properties are proved about that function.
- Pure code is functions.

I/O is replaced by inputs and outputs:

- A database read becomes a table argument.
- A `to_sql` write, or an `UPDATE` statement, becomes a returned flag or the returned SET clause.
- HTTP responses, directory listings, random samples and image similarity scores are parameters.

The functions cite the same ranges in `utils/stream_tools.py` and `depreciated/stream_tools.py` because those two files hold the same code for these functions.

## Model

| member | source | states |
|---|---|---|
| PfpCheck.TierOf | utils/pfp_check.py:43-69 | Each score falls in exactly one tier. All boundaries are strict: > 0.925 is exact, (0.9, 0.925] is twinsies, (cutoff, 0.9] is likely, and anything else is a miss. |
| PfpCheck.CheckPfpAt | utils/pfp_check.py:23-69 | The boolean is true iff the tier is not a miss. The exact and twinsies tiers return the single reference path folder + "/" + filename. A likely match returns the single candidate image. A miss returns "No match found". |
| PfpCheck.CheckPfp | utils/pfp_check.py:23-69 | With the hard-coded 0.5 cutoff, the result is true iff the score > 0.5. The evidence is exactly one path, exactly one image, or the no-match text, depending on the band. |
| PfpCheck.MissBranchesAgree | utils/pfp_check.py:64-69 | The `< 0.4` branch and the fall-through give the same (false, "No match found"). |
| TrackedTable.FindUser | utils/stream_tools.py:465-467 | Finds the first row whose index is the username (idxmax of the match mask). The result is None iff no row matches. |
| TrackedTable.NewRow | utils/stream_tools.py:507-519 | The appended row carries the username, the name, every observed counter and the three texts. |
| TrackedTable.MergeCounter | utils/stream_tools.py:477-494 | A NULL counter takes the observation. Otherwise the counter becomes max(stored, new). The result never decreases and is at least the observation. |
| TrackedTable.MergeText | utils/stream_tools.py:496-501 | A descriptive cell always ends up holding the observed text: it is overwritten when NULL or different, never max'd. |
| TrackedTable.MergeRow | utils/stream_tools.py:477-504 | Every counter is max-merged and every text is overwritten. The index and Name cells are kept. |
| TrackedTable.Upserted | utils/stream_tools.py:445-523 | A write happens iff the user is absent. An absent user gets exactly one appended row, and an empty table becomes that single row. A known user keeps the table length. |
| TrackedTable.CounterUpdates | utils/stream_tools.py:476-493 | The update dictionary holds exactly the counter columns whose stored value is NULL or below the observation, each with its merged value. |
| TrackedTable.Upsert | utils/stream_tools.py:445-525 | The loop-built update dictionary and its conditional assignment give exactly `Upserted`. |
| TrackedTable.UpsertKeepsOthersAndRaises | utils/stream_tools.py:465-504 | No counter of any row decreases. Only the user's first row can change, and its index and name stay the same. |
| TrackedTable.UpsertHoldsUser | utils/stream_tools.py:445-523 | Afterwards the user is present with the observed texts and with counters ≥ the observed values. |
| TrackedTable.UpsertFindsSame | utils/stream_tools.py:465-523 | In the result the user is found at the merged position, or at the appended last position. |
| TrackedTable.MergeRowIdempotent | utils/stream_tools.py:477-501 | Merging the same observation twice equals merging it once. |
| TrackedTable.MergeNewRowIsNoop | utils/stream_tools.py:477-519 | Merging an observation into the row built from it changes nothing. |
| TrackedTable.UpsertIdempotent | utils/stream_tools.py:465-504 | Replaying the same call on the returned table returns the same table and issues no write. |
| TrackedTable.UpsertNoChangeWhenDominated | utils/stream_tools.py:503-505 | If the stored row already dominates every counter and holds the observed texts, the table comes back unchanged. |
| StreamTools.UpdatePfpTrackedTable | utils/stream_tools.py:437-525 | The six-counter upsert writes iff the user is absent. A write appends exactly one row, otherwise the length is kept. The table stays well formed. |
| StreamTools.PairRules | utils/stream_tools.py:99-101 | Each rule is paired with the tag at the position of its first occurrence (`list.index`). The pairing fails (IndexError) iff some first occurrence has no tag. |
| StreamTools.FirstIndexOfDistinct | utils/stream_tools.py:101 | With distinct rules, `index` returns each rule's own position. |
| StreamTools.PairingIsPositionalForDistinctRules | utils/stream_tools.py:99-101 | With distinct rules and enough tags, rule i gets tag i. |
| StreamTools.RepeatedRuleKeepsFirstTag | utils/stream_tools.py:99-101 | A repeated rule gets the tag of its earlier position. |
| StreamTools.CleanupError | utils/stream_tools.py:51-82 | A `delete_all_rules(get_rules())` round raises in get_rules iff the GET is not answered 200. It raises in delete_all_rules iff rules are listed and the delete POST is not answered 200. Otherwise it does not raise. |
| StreamTools.SetRules | utils/stream_tools.py:87-126 | The flag ends down whatever happens, because it is lowered before anything can raise. With the flag up the configured rules and tags are paired; with it down the payload is empty. A pairing IndexError stops the call first. Then get_rules must answer 200. A stream that did not answer deletes its listed rules, and counts one restart only when that delete did not raise. Last, the add POST must answer 201. On success the payload is rule i with the tag at its first occurrence. A call that raises before the count leaves it unchanged. |
| StreamTools.UpdateRules | utils/stream_tools.py:130-137 | Rules are re-sent iff the flag was set; otherwise nothing changes. If the clearing round raises, the flag stays up and the count is unchanged. Otherwise the result and the count follow set_rules on the configured rules and tags, and the flag ends down. |
| DeprecatedStreamTools.UpdateEngagementTable | depreciated/stream_tools.py:174-276 | The four-counter upsert writes iff the user is absent. An empty table becomes one row. Every stored counter is dominated afterwards. The table stays well formed. |
| MetricsTables.Metrics.Override | utils/stream_tools.py:389-411 | Exactly the metrics named in the update take their new values; the others keep theirs. |
| MetricsTables.FindTweet | utils/stream_tools.py:370-371 | Finds the first row of the tweet; the result is None iff no row has that id. |
| MetricsTables.IncreasedMetrics | utils/stream_tools.py:388-411 | The update dictionary holds exactly the metrics whose observed value is strictly greater, each with the observed value. |
| MetricsTables.UpdateTweetsTable | utils/stream_tools.py:363-427 | An unknown tweet raises and changes nothing. Otherwise every row of the tweet takes exactly the strictly increased metrics. An UPDATE is issued iff at least one metric rose. The new rows are exactly `TweetsAfter`. The deprecated copy (depreciated/stream_tools.py:87-172) does the same. |
| MetricsTables.RaisedMetrics | utils/stream_tools.py:387-411 | Holds exactly the metrics whose observed value is strictly greater than the stored one, each with the observed value. |
| MetricsTables.RaisedMetricsAsWritten | utils/stream_tools.py:370-387 | As written, each observed metric is compared with the next column of the shifted row, and impressions with the tweet id. |
| MetricsTables.ShiftedComparisonLowersFavorites | utils/stream_tools.py:374-390 | With 10 stored likes and no retweets, 5 observed likes produce an UPDATE to Favorites = 5, while the intended comparison raises nothing. |
| MetricsTables.TweetsAfter | utils/stream_tools.py:387-411 | The row count is preserved, and so are every row's tweet id and index. Rows of other tweets are unchanged, and so is a frame without the tweet. Each row of the tweet takes the observed value exactly for the metrics that beat the first row's stored value. |
| MetricsTables.TweetsOnlyRise | utils/stream_tools.py:387-411 | The compared row ends at max(stored, observed) for each metric. With a unique tweet id, no cell of any row decreases. |
| MetricsTables.TweetsReplayIsNoop | utils/stream_tools.py:387-420 | Replaying the same observation finds the same row and raises no metric, so no second UPDATE is issued and the rows stay exactly as the first call left them. |
| MetricsTables.FindUserRow | utils/stream_tools.py:313-317 | Finds the author's first users row; the result is None iff the author has no row. |
| MetricsTables.SumForAppend | utils/stream_tools.py:321-325 | The `+=` sum over two stretches of the metrics table is the sum of the two. |
| MetricsTables.SumForIgnoresOthers | utils/stream_tools.py:321 | Rows of other authors contribute nothing. |
| MetricsTables.SumForNonNegative | utils/stream_tools.py:321-325 | Non-negative rows give non-negative sums. |
| MetricsTables.AggregatedTotals | utils/stream_tools.py:313-329 | Each total is stored plus the sum of the author's rows. An impressions total of zero reverts to the stored impressions. |
| MetricsTables.AggregateTotals | utils/stream_tools.py:313-329 | The `+=` loop and the zero fallback compute exactly `AggregatedTotals`. |
| MetricsTables.AggregationDoubleCounts | utils/stream_tools.py:321-325 | Aggregating twice adds the author's sum twice, so the update is not idempotent when the sum is non-zero. |
| MetricsTables.ZeroFallbackInert | utils/stream_tools.py:328-329 | With non-negative counts the zero-impressions fallback never changes the result. |
| MetricsTables.UpdateAggregatedMetrics | utils/stream_tools.py:309-353 | An unknown author raises. The author's rows take the totals and the table is written iff some total differs from the stored row; otherwise nothing changes. The deprecated copy (depreciated/stream_tools.py:25-85) does the same. |
| Membership.ReferenceFiles | engagement_stream.py:119-122 | Keeps exactly the listing entries ending in "png" or "jpg", and no more than the listing holds. |
| Membership.LastCompared | engagement_stream.py:129-149 | Finds the last sampled name ending in ".png" or ".jpg". The result is None iff no sampled name is compared. |
| Membership.SampleVerdict | engagement_stream.py:129-149 | The flag is the verdict on the last compared file ("last sample wins"). When no file is compared, the flag keeps the previous line's value. |
| Membership.ClassifySample | engagement_stream.py:129-138 | The overwrite loop leaves exactly `SampleVerdict`. |
| Membership.Decide | engagement_stream.py:151-242 | A y00ts match takes precedence. Degods counts only when the y00ts flag is false. An unbound flag raises UnboundLocalError naming that flag. The cases are stated as if-and-only-ifs. |
| Membership.MessageError | engagement_stream.py:151-242 | The branch's message reads `y00t_file` (except in the degods branch) and then `degod_file`. It raises naming the first of them that is still unbound, and is clean iff every name it reads is bound. The deprecated driver's messages (depreciated/engagement_stream.py:164-280) read the same names. |
| Membership.StreamDriver.Current | engagement_stream.py:137-149 | The current driver classifies both collections with check_pfp's 0.5 cutoff and starts with empty lists and with the flags, `y00t_file` and `degod_file` unbound. |
| Membership.StreamDriver.Deprecated | depreciated/engagement_stream.py:139-161 | The deprecated driver uses 0.5 for y00ts and 0.45 for degods, and starts with the same empty lists and unbound locals. |
| Membership.StreamDriver.ProcessLine | engagement_stream.py:88-242 | Only the last included user is classified. A line with no included user classifies the previous line's user again; only when no earlier line bound one does it crash with an unbound `username`. A failed picture fetch skips the line. Each flag is its sample's verdict, and each file local is the last sampled name if the sample is non-empty. An unbound flag, or an unbound file local read by the branch's message, crashes before anything is filed. Otherwise the user lands in exactly one of matched users or non-holders, and only a y00ts match records the link. The deprecated driver (depreciated/engagement_stream.py:96-280) reduces the same way with its own thresholds. |
| Membership.StreamDriver.CompareSamples | engagement_stream.py:129-149 | Each flag becomes its sample's verdict (`SampleVerdict`), and each loop variable is left at the sample's last name, or keeps its value when the sample is empty. |
| Membership.StreamDriver.FileUser | engagement_stream.py:151-242 | Appends the user to exactly one list. The link is appended only for a y00ts match. |
| Membership.ComparedNamesAreReferenceNames | engagement_stream.py:119-141 | Every compared name is also a reference-file name. |
| Membership.SampleDrawsReferenceFiles | engagement_stream.py:119-126 | A sample has at most 5 entries, all reference files of the listing. |
| Membership.DegodCutoffIsLower | depreciated/engagement_stream.py:139-161 | A score in (0.45, 0.5] matches degods but not y00ts. |
| ConfigState.Copies | utils/config.py:58-60 | n appends of the same entry give exactly n copies of it. |
| ConfigState.IndexOf | utils/config.py:77 | Finds the first occurrence: no earlier position holds the element. |
| ConfigState.RemoveFirst | utils/config.py:77 | `list.remove` fails iff the element is absent. Otherwise exactly its first occurrence is deleted and every other entry keeps its order (`DropsFirst`), so the list loses exactly one copy. |
| ConfigState.RemoveAllKeepsOrder | utils/config.py:88-91 | What a run of removals leaves is a subsequence of the list: the surviving entries keep their order. |
| ConfigState.RemoveAll | utils/config.py:88-91 | The number of successful removals never exceeds the number of items. |
| ConfigState.RemoveAllSucceeds | utils/config.py:88-91 | Every removal succeeds iff the items fit in the list as a multiset. The list then loses exactly those items. |
| ConfigState.RemoveEach | utils/config.py:88-91 | The removal loop stops at the first missing element and equals `RemoveAll`. |
| ConfigState.Appended | utils/config.py:56-57 | The append loop gives the list followed by the items, in order. |
| ConfigState.Config.constructor | utils/config.py:31-47 | Every list starts empty, the restart count at 0 and the flag down. |
| ConfigState.Config.SetAddRule | utils/config.py:55-61 | Rules and tags are appended in order, and the tag list joins collections once per tag. The flag ends up. |
| ConfigState.Config.SetRemoveRule | utils/config.py:72-78 | All removals succeed iff collections hold the tag list at least once per tag; then exactly those copies go and the flag is set. On failure the failing tag is already queued and the flag is unchanged. |
| ConfigState.Folded | utils/config.py:80-91 | Queued rules and tags are appended only when a rule is queued. With no queued removal, everything succeeds. Otherwise the rule removals take exactly the queued rules out when they all fit as a multiset. The tag list is untouched unless they fit. Overall success means both queues fitted, and then the tags lose exactly the queued tags. The live rules and tags are subsequences of the lists before removal, so survivors keep their relative order. |
| ConfigState.Config.UpdateRules | utils/config.py:80-91 | The live rules, tags and success flag become exactly `Folded` of the old lists and the queues. |
| ConfigState.Config.SetUpdateFlag | utils/config.py:111-112 | The flag takes the given value. |
| ConfigState.Config.IncrementRecount | utils/config.py:114-115 | The restart count rises by exactly one, and nothing else changes. |
| ConfigState.Config.AddCollectionToTrack | utils/config.py:120-122 | Appends the collection unconditionally and sets the flag. |
| ConfigState.RemoveCopies | utils/config.py:75-77 | Never more successful removals than tags. |
| ConfigState.RemoveGroup | utils/config.py:75-77 | The set_remove_rule removal loop equals `RemoveCopies`. |
| ConfigState.Removable | utils/config.py:72-78 | The removals succeed iff the multiplicity of the tag list is ≥ its length, and then exactly those copies are removed. |
| ConfigState.AddThenRemoveRestoresCollections | utils/config.py:55-78 | set_add_rule then set_remove_rule with the same tags always succeeds and restores the collections as a multiset. |
| NftInspect.Filter | depreciated/nft_inspect_tools.py:203-207 | Keeps exactly the accepted members. |
| NftInspect.FilterAppend | depreciated/nft_inspect_tools.py:216-220 | Filtering keeps order: filtering a concatenation is concatenating the filtered parts. |
| NftInspect.GetWearingList | depreciated/nft_inspect_tools.py:226-253 | Returns five aligned lists, one entry per member whose Wearing PFP > 0, in input order. Global reach is scaled by 100. |
| NftInspect.CollectionMembers | depreciated/nft_inspect_tools.py:174-207 | Keeps exactly the members whose name is in the users table, in API order. |
| NftInspect.Stacked | depreciated/nft_inspect_tools.py:214-223 | Holds exactly the known members of each collection. |
| NftInspect.DbMembersCollectionsStats | depreciated/nft_inspect_tools.py:214-223 | Concatenates the per-collection frames in collection order. Every member is known. |
| NftInspect.AddCollectionToTrack | depreciated/nft_inspect_tools.py:23-38 | Appends only when the name is absent, so no duplicate is introduced. |
| NftInspect.RemoveCollectionToTrack | depreciated/nft_inspect_tools.py:41-56 | When the name is present, exactly its first occurrence is deleted and the other entries keep their order; otherwise nothing changes. |
| NftInspect.RemoveLeavesNoCopy | depreciated/nft_inspect_tools.py:48-49 | On a duplicate-free list, removal takes the name out altogether. |
| NftInspect.MultiplicityOfDistinct | depreciated/nft_inspect_tools.py:48-49 | An entry of a duplicate-free list occurs exactly once. |
| NftInspect.AddBodyAsWritten | depreciated/nft_inspect_tools.py:30-33 | Past its first line, the add helper succeeds only on an already tracked name, and then changes nothing. A new name raises, because `append_collections` does not exist. |
| NftInspect.RemoveBodyAsWritten | depreciated/nft_inspect_tools.py:48-51 | Past its first line, the remove helper deletes the first occurrence of a tracked name, keeping the other entries in order, and leaves an untracked name alone. |
| NftInspect.AddCollectionToTrackAsWritten | depreciated/nft_inspect_tools.py:23-38 | As written, every call raises at its first statement, before touching the collections. |
| NftInspect.RemoveCollectionToTrackAsWritten | depreciated/nft_inspect_tools.py:41-56 | As written, every call raises at its first statement, before touching the collections. |
| NftInspect.AsWrittenNeverChangesCollections | depreciated/nft_inspect_tools.py:23-56 | As written, neither helper ever yields the intended new collection list. |
| Throttling.BeforeComma | apis/api/throttling.py:53 | Returns the longest comma-free prefix; it is the whole string when there is no comma. |
| Throttling.GetIdent | apis/api/throttling.py:47-56 | A non-empty forwarded header gives exactly `BeforeComma` of it, the untrimmed text before the first comma. Otherwise the result is REMOTE_ADDR. |
| Throttling.Allow | apis/api/throttling.py:65-101 | No key: allowed, cache unchanged. Count ≥ limit: denied, cache unchanged. New key: count 1, allowed. Otherwise: count + 1, allowed. |
| Throttling.AllowKeepsBound | apis/api/throttling.py:78-101 | Counts stay within 1..max(limit, 1), and other keys are untouched. |
| Throttling.AllowedWithinLimit | apis/api/throttling.py:65-101 | Over any interleaving of requests in one window, a client gets at most max(limit, 1) requests through, counting those already recorded. |
| Throttling.LeadingCommaBypasses | apis/api/throttling.py:47-75 | A forwarded header starting with a comma yields the empty key, which is always allowed. |
| Throttling.CustomThrottle.constructor | apis/api/throttling.py:41-45 | Stores the request limit and starts with an empty cache. |
| Throttling.CustomThrottle.AllowRequest | apis/api/throttling.py:65-101 | The verdict and new cache are exactly `Allow`. A denial leaves the cache unchanged, and other keys are untouched. |
| Throttling.CustomThrottle.Expire | apis/api/throttling.py:89-97 | The key's entry leaves the cache (the time-to-live ends). |
| Throttling.AllowOnce | apis/api/throttling.py:30-35 | A marked key is denied. A new non-empty key is marked and allowed. No key is allowed without marking anything. |
| Throttling.AllowedAtMostOnce | apis/api/throttling.py:30-35 | A key gets at most one request per window, and none if it is already marked. |
| Throttling.BasicThrottle.constructor | apis/api/throttling.py:17-20 | Starts with no marked keys. |
| Throttling.BasicThrottle.AllowRequest | apis/api/throttling.py:23-35 | The verdict and new marks are exactly `AllowOnce` of REMOTE_ADDR. |
| Throttling.BasicThrottle.Expire | apis/api/throttling.py:34 | The key's mark is dropped. |
| DiscordTools.Lower | utils/discord_tools.py:166 | Same length, with ASCII capitals lowered. |
| DiscordTools.CountPositiveIffOccurs | utils/discord_tools.py:166 | `count` of a non-empty word is positive iff the word occurs in the text. |
| DiscordTools.CountFits | utils/discord_tools.py:166 | The counted occurrences do not overlap: count × length ≤ text length. |
| DiscordTools.QuestionCounts | utils/discord_tools.py:160-166 | Fresh for each message: each question word's count of non-overlapping occurrences in the lower-cased content. |
| DiscordTools.CaseSensitiveTestMissesCapitals | utils/discord_tools.py:164-166 | "What?" counts once for "what" but is not collected as a question. |
| DiscordTools.Hits | utils/discord_tools.py:163-165 | Every collected entry is the message itself, at most once per question word. |
| DiscordTools.HitsCountsMatchingWords | utils/discord_tools.py:163-165 | The message is collected exactly as many times as question words occur in it (case-sensitive). |
| DiscordTools.QuestionHits | utils/discord_tools.py:163-165 | The inner loop collects the message once per question word it contains, and so as many times as there are such words. |
| DiscordTools.CollectedQuestions | utils/discord_tools.py:157-165 | Everything collected is one of the messages. |
| DiscordTools.QuestionLog.constructor | utils/discord_tools.py:151-152 | Both module-level lists start empty. |
| DiscordTools.QuestionLog.GetQuestions | utils/discord_tools.py:156-171 | Every message is appended to `messages`, and `questions` grows by `CollectedQuestions`. The whole accumulated message list is returned. |
| DiscordTools.TakeWord | utils/discord_tools.py:190 | Returns the longest whitespace-free prefix. |
| DiscordTools.Words | utils/discord_tools.py:190 | `split()` yields non-empty words without whitespace which, run together, are the text with its whitespace removed. The text is the words interleaved with whitespace runs, each run between two words being non-empty (`SplitsAs`). |
| DiscordTools.SplitDeterminesWords | utils/discord_tools.py:190 | Any cut of the text into words around whitespace runs, with non-empty runs between words, is exactly what `split()` returns. |
| DiscordTools.TakeWordOf | utils/discord_tools.py:190 | The first word of a whitespace-free word followed by nothing, or by text that starts with whitespace, is that word. |
| DiscordTools.SplitJoin | utils/discord_tools.py:190 | Splitting words joined by single spaces gives back those words. |
| DiscordTools.DropWords | utils/discord_tools.py:191 | Each stopword disappears, and every other word keeps its multiplicity. |
| DiscordTools.KeyIndex | utils/discord_tools.py:192 | Finds the Counter entry of a word; the result is None iff there is none. |
| DiscordTools.BumpDistinct | utils/discord_tools.py:192 | Counting one more word never gives a word a second entry. |
| DiscordTools.BumpKeys | utils/discord_tools.py:192 | After counting a word, the Counter's keys are the old keys plus that word. |
| DiscordTools.TallyOfKeys | utils/discord_tools.py:192 | The Counter has a key exactly for the words seen. |
| DiscordTools.TallyOfDistinct | utils/discord_tools.py:192 | No word has two Counter entries. |
| DiscordTools.TallyOfCounts | utils/discord_tools.py:192 | The Counter holds each seen word exactly once, with its number of occurrences, and holds no other word. |
| DiscordTools.MaxIndex | utils/discord_tools.py:193 | Finds the leftmost entry with the largest count. |
| DiscordTools.MostCommon | utils/discord_tools.py:193 | `most_common(k)` returns min(k, n) entries. |
| DiscordTools.RemoveAt | utils/discord_tools.py:193 | Dropping one entry shortens the list by one and shifts the later entries down. |
| DiscordTools.RemoveAtMembers | utils/discord_tools.py:193 | Dropping an entry adds none and keeps every other entry. |
| DiscordTools.MostCommonFromCounter | utils/discord_tools.py:193 | Every entry `most_common` returns is an entry of the counter. |
| DiscordTools.MostCommonSorted | utils/discord_tools.py:193 | The entries come in order of non-increasing count. |
| DiscordTools.MostCommonMaximal | utils/discord_tools.py:193 | No counter entry left out has a larger count than the last one taken. |
| DiscordTools.MostCommonCounts | utils/discord_tools.py:192-193 | The chosen entries carry their true, positive counts. |
| DiscordTools.DropWordsSet | utils/discord_tools.py:191 | The kept words are exactly the non-stopwords of the message, as a set. |
| DiscordTools.TallyOfSize | utils/discord_tools.py:192 | The Counter has one entry per distinct word. |
| DiscordTools.RemoveAtDistinct | utils/discord_tools.py:193 | Dropping an entry from a list with distinct words keeps the words distinct. |
| DiscordTools.MostCommonDistinct | utils/discord_tools.py:193 | `most_common` of a counter with distinct words returns distinct words. |
| DiscordTools.TopWords | utils/discord_tools.py:177-193 | Returns min(3, number of distinct non-stopwords) distinct non-stopwords with non-increasing counts, each count being that word's number of occurrences in the message. |
| DiscordTools.TopWordsAreMostFrequent | utils/discord_tools.py:193 | Any non-stopword left out of a full top three occurs no more often than the third. |
| DiscordTools.GetKeywords | utils/discord_tools.py:175-194 | Only the first message is read. The result is None iff the history is empty. |

## Left out

- Image work: the similarity score (SSIM), image decoding and resizing, and display. The score is a `real` input.
- The SSIM minimum, maximum and average printouts (utils/pfp_check.py:36-42). They are floating-point logging only.
- `random.sample`. The sample is an input constrained to `min(5, n)` distinct reference files.
- All HTTP, Twitter, NFTInspect, OpenAI and Discord calls; `logging` and `print`.
- Parts of the drivers after a user is filed. The user-info lookup, the metrics fetch, the bio lookup and the table update are calls to helpers that `utils/stream_tools.py` does not define (`get_twitter_user_info`, `get_user_metrics_start_end`, and the 11-argument `update_engagement_table`). They are not part of this model.
- Membership.StreamDriver.ProcessLine and Membership.StreamDriver.FileUser assume that the user-info lookup returns normally. As written, both drivers import `utils/stream_tools.py` as `st`, and it defines no `get_twitter_user_info`. So the first y00ts or degods match raises AttributeError right after `matched_users.append(username)` (engagement_stream.py:154-155 and 197-199; depreciated/engagement_stream.py:167-168 and 226-228), and the stream ends. The link append (engagement_stream.py:167; depreciated/engagement_stream.py:180), the `Classified` outcome of a match and every later line hold only under this assumption. A non-holder line does not call the helper.
- Persistence: `to_sql`, `read_sql_table` and `engine.execute`. Tables are sequences. A write is a returned flag, and an UPDATE is its returned SET clause.
- The `level_0` column clean-up in update_tweets_table (its `dropna` and column drops). The positional read of `row[2..5]` is a finding below: `RaisedMetricsAsWritten` models it, and the rest of the model compares the named metrics of the first matching row.
- pandas NULL handling. A NULL cell read from the database is NaN rather than None. The model follows the code's evident `is None` guard, with NULL as `None`.
- Column types. Global_Reach is a float column; the model treats every counter as an unbounded integer. Counters read through pandas are 64-bit integers, and their overflow is not modelled.
- MetricsTables.TweetsOnlyRise: raise-only for every row is proved only when the tweet id is unique. With duplicate ids, rows after the first take the first row's comparison.
- remove_rules (utils/stream_tools.py:141-162). As written it compares the `remove_rule` list with "" and with each rule's value. It then calls `set_rules` with an argument that `set_rules` does not accept, so it fails with a TypeError. It is not modelled.
- StreamTools.SetRules: each HTTP answer is reduced to the one fact the code tests: whether the stream GET answered 200, whether get_rules answered 200, whether it listed rules, whether the delete POST answered 200, and whether the add POST answered 201. The request bodies and the printed JSON are not modelled.
- set_rules reads `params.update_flag` and `config.update_flag`. `get_config` returns its own instance, so the model treats both as the same flag.
- The deprecated driver calls `check_pfp` with a fifth argument, the cutoff (depreciated/engagement_stream.py:148-161). The four-argument `check_pfp` of utils/pfp_check.py would reject that call. The model gives that driver `CheckPfpAt` with the cutoff the call passes.
- `Config` declares its list fields with `[]` dataclass defaults, which Python rejects when the class is created. The model gives every instance its own empty lists.
- `set_add_rule` and `set_remove_rule` iterate over their arguments. The model takes them as sequences of strings; a plain string argument would be iterated character by character.
- Config fields the core never updates (table names, endpoints, timeouts) are left out, as are the getters that only return a field.
- The Django cache and its time-to-live. The cache is a map with an explicit `Expire`.
- Throttling.CustomThrottle.constructor: as written, no throttle is ever built. The first failure is `super().__init__(get_response)` (apis/api/throttling.py:42): `SimpleRateThrottle.__init__` takes no argument besides the instance, so it raises TypeError. Past it, `caches('default')` (line 45) would raise TypeError too, because `caches` is a handler indexed by alias, not a callable. The model builds it with an empty cache, as evidently intended.
- Throttling.Allow: `num_requests` ≤ 0 is kept as written; the proved bound is max(`num_requests`, 1).
- DiscordTools.Lower: lowers ASCII letters only. Python's `str.lower` also lowers non-ASCII letters.
- The `question_counts` tally feeds only a debug log, and `top_3_questions` is computed and never used. `QuestionCounts` models the tally; `most_common(3)` over it is left out.
- The NFTInspect columns "Time With Token" and "Time With Collection" are carried by the source but never read. They are left out of `Member`.

## Findings

| source | as written | input that shows it | evidently intended | confidence | as-written member | corrected member |
|---|---|---|---|---|---|---|
| depreciated/nft_inspect_tools.py:24 | `Config.get_config()` is called on the class with no instance, which raises TypeError before anything else runs. Line 31 then calls `config.append_collections`, which Config does not define. | `add_collection_to_track("y00ts")` with any configuration | Append the name to `collections` when it is absent. | high, not executed | NftInspect.AddCollectionToTrackAsWritten | NftInspect.AddCollectionToTrack |
| utils/stream_tools.py:370-385 | A tweets row read without an index column has eight cells (index, Author, Favorites, Retweets, Replies, Impressions, Tweet_ID, Tags; utils/postgres_tools.py:272-280). It is cut to `row[1:]`, so `row[2..5]` are Retweets, Replies, Impressions and Tweet_ID. Each metric is compared with the wrong column. The deprecated copy (depreciated/stream_tools.py:115-130), called from depreciated/filtered_stream.py:298-301, does the same. | 10 stored likes, 0 stored retweets, 5 observed likes: Favorites is set to 5 | Compare each observed metric with the stored value of the same metric, so counts only rise. | medium, not executed | MetricsTables.ShiftedComparisonLowersFavorites | MetricsTables.TweetsOnlyRise |
| depreciated/nft_inspect_tools.py:42 | `Config.get_config()` is called on the class with no instance, which raises TypeError before the removal. | `remove_collection_to_track("y00ts")` with "y00ts" tracked | Remove one occurrence of the name when it is present. | high, not executed | NftInspect.RemoveCollectionToTrackAsWritten | NftInspect.RemoveCollectionToTrack |
